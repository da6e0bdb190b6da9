/** How cmd/sink/main.go wires the host rules together, from the validated configuration to the router. */
module Pipeline {
  import opened Results
  import opened GoStrings
  import opened Seqs
  import opened Certificates
  import opened Profiles
  import opened Config
  import opened PatternLists
  import opened Loading
  import opened Gates
  import opened Routing
  import opened CacheRuns
  import NameConstraints
  import PkiHosts
  import Issuing

  datatype HostsError = BadPattern(cause: PkiHosts.HostError) | NothingPermitted

  /** effectiveHosts on certificates that parsed. */
  method EffectiveHosts(root: Certificate, intermediate: Certificate, hosts: seq<string>)
    returns (r: Result<Filtered, HostsError>)
    ensures match FilterHostsSpec(root, intermediate, hosts)
            case Err(e) => r == Err(BadPattern(e))
            case Ok(f) => r == if f.kept == [] then Err(NothingPermitted) else Ok(f)
  {
    var filtered := FilterHosts(root, intermediate, hosts);
    if filtered.Err? {
      return Err(BadPattern(filtered.error));
    }
    if |filtered.value.kept| == 0 {
      return Err(NothingPermitted);
    }
    return Ok(filtered.value);
  }

  /** The host list is one that validation returns. */
  predicate Validated<B>(items: map<string, Profile<B>>, profiles: seq<string>, hosts: seq<string>) {
    TryEach(Checker(items, profiles), hosts) == Ok(hosts)
  }

  /**
   Every route pattern that the issuer can normalise and the CA keeps is still provided in its
   normal form. This can only fail for a pattern with white space right behind its "*.".
   */
  ghost predicate StaysProvided<B>(
      items: map<string, Profile<B>>, profiles: seq<string>, root: Certificate, intermediate: Certificate)
  {
    forall p :: RoutePattern(items, profiles, p) && PkiHosts.NormalizePattern(p).Ok?
                && Permitted(root, intermediate, PkiHosts.NormalizePattern(p).value)
                ==> Provided(items, profiles, PkiHosts.NormalizePattern(p).value)
  }

  /** Whatever passes the gate built from the filtered host list has a route in an enabled profile. */
  ghost predicate GateLeadsToRoutes<B>(
      items: map<string, Profile<B>>, profiles: seq<string>,
      root: Certificate, intermediate: Certificate, hosts: seq<string>)
  {
    FilterHostsSpec(root, intermediate, hosts).Ok? ==>
      forall host :: AllowedHost(HostSet(FilterHostsSpec(root, intermediate, hosts).value.kept), host)
                     ==> Provided(items, profiles, host)
  }

  /** What the issuer's pattern normaliser does to a name in the profile package's normal form. */
  lemma PatternOfPlain(h: string)
    requires Plain(h) && PkiHosts.NormalizePattern(h).Ok?
    ensures var p := PkiHosts.NormalizePattern(h).value;
            p == h || (HasPrefix(h, "*.") && p == "*." + TrimLeft(h[2..]))
  {
    TrimSpaceFixes(h);
    if HasPrefix(h, "*.") {
      PlainTail(h);
      KeepsEnd(h[2..], TrimLeft(h[2..]));
    } else {
      assert h[|h|-1..] == [h[|h|-1]];
    }
  }

  lemma PlainTail(h: string)
    requires Plain(h) && HasPrefix(h, "*.")
    ensures var s := h[2..]; s != "" && !IsSpace(s[|s|-1]) && s[|s|-1] != '.' && ToLower(s) == s
  {
  }

  /** A lowered text with a clean end only loses white space in front. */
  lemma KeepsEnd(s: string, n: string)
    requires s != "" && !IsSpace(s[|s|-1]) && s[|s|-1] != '.' && ToLower(s) == s
    requires n == TrimLeft(s)
    ensures TrimSuffix(ToLower(TrimSpace(s)), ".") == n
  {
  }

  /** A label boundary survives when white space in front of the name is trimmed. */
  lemma {:induction false} TrimLeftSuffix(s: string, y: string)
    requires HasSuffix(s, "." + y)
    ensures HasSuffix(TrimLeft(s), "." + y)
  {
    if s != "" && IsSpace(s[0]) {
      SuffixBehindSpace(s, "." + y);
      TrimLeftSuffix(s[1..], y);
    }
  }

  lemma SuffixBehindSpace(s: string, t: string)
    requires s != "" && t != "" && HasSuffix(s, t) && s[0] != t[0]
    ensures HasSuffix(s[1..], t)
  {
  }

  /** A provided host stays provided when the issuer normalises it, if every route pattern does. */
  lemma NormalStaysProvided<B>(
      items: map<string, Profile<B>>, profiles: seq<string>, root: Certificate, intermediate: Certificate, h: string)
    requires GoodProfiles(items, profiles) && StaysProvided(items, profiles, root, intermediate)
    requires Plain(h) && Provided(items, profiles, h) && PkiHosts.NormalizePattern(h).Ok?
    requires Permitted(root, intermediate, PkiHosts.NormalizePattern(h).value)
    ensures Provided(items, profiles, PkiHosts.NormalizePattern(h).value)
  {
    var p := PkiHosts.NormalizePattern(h).value;
    PatternOfPlain(h);
    ProvidedByPattern(items, profiles, h);
    var r :| RoutePattern(items, profiles, r) && PatternCovers(r, h);
    if p != h && r != h {
      var s, y := h[2..], r[2..];
      WildcardTail(h, r);
      TrimLeftSuffix(s, y);
      SuffixTail("*.", TrimLeft(s), "." + y);
      assert PatternCovers(r, p);
      ProvidedByPattern(items, profiles, p);
    }
  }

  /** A wildcard that covers another, different one covers it from a label boundary behind its "*.". */
  lemma WildcardTail(h: string, r: string)
    requires HasPrefix(h, "*.") && PatternCovers(r, h) && r != h
    ensures HasPrefix(r, "*.") && HasSuffix(h[2..], "." + r[2..])
  {
    var s, y := h[2..], r[2..];
    assert h == "*." + s && r == "*." + y;
    assert h[1..] == "." + s && h[|h| - |y| - 1] == ("." + y)[0];
    DotInjective(s, y);
    SuffixTail("*.", s, "." + y);
  }

  lemma DotInjective(a: string, b: string)
    ensures "." + a == "." + b ==> a == b
  {
    assert ("." + a)[1..] == a && ("." + b)[1..] == b;
  }

  lemma ValidatedHosts<B>(items: map<string, Profile<B>>, profiles: seq<string>, hosts: seq<string>)
    requires GoodProfiles(items, profiles) && Validated(items, profiles, hosts)
    ensures forall h :: h in hosts ==> Plain(h) && Provided(items, profiles, h)
  {
    var check := Checker(items, profiles);
    TryEachElement(check, hosts);
    forall h | h in hosts ensures Plain(h) && Provided(items, profiles, h) {
      var i :| 0 <= i < |hosts| && hosts[i] == h;
      assert check(hosts[i]) == Ok(h);
      CoveredIsFixed(items, profiles, h, h);
    }
  }

  /** The kept pattern behind a host that passes the gate, and the configured host it came from. */
  lemma GateSource(root: Certificate, intermediate: Certificate, hosts: seq<string>, host: string)
    returns (p: string, h: string)
    requires FilterHostsSpec(root, intermediate, hosts).Ok?
    requires AllowedHost(HostSet(FilterHostsSpec(root, intermediate, hosts).value.kept), host)
    ensures PatternCovers(p, host) && h in hosts
    ensures PkiHosts.NormalizePattern(h) == Ok(p) && Permitted(root, intermediate, p)
  {
    var kept := FilterHostsSpec(root, intermediate, hosts).value.kept;
    KeptComesFrom(root, intermediate, hosts);
    GateIsCoverage(kept, host);
    p :| p in kept && PatternCovers(p, host);
    h :| h in hosts && PkiHosts.NormalizePattern(h) == Ok(p);
  }

  /** Every configured host that the CA keeps is provided in the issuer's normal form. */
  ghost predicate KeptAreProvided<B>(
      items: map<string, Profile<B>>, profiles: seq<string>,
      root: Certificate, intermediate: Certificate, hosts: seq<string>)
  {
    forall h :: h in hosts && PkiHosts.NormalizePattern(h).Ok?
                && Permitted(root, intermediate, PkiHosts.NormalizePattern(h).value)
                ==> Provided(items, profiles, PkiHosts.NormalizePattern(h).value)
  }

  lemma GatedIsProvided<B>(
      items: map<string, Profile<B>>, profiles: seq<string>,
      root: Certificate, intermediate: Certificate, hosts: seq<string>, host: string)
    requires KeptAreProvided(items, profiles, root, intermediate, hosts)
    requires FilterHostsSpec(root, intermediate, hosts).Ok?
    requires AllowedHost(HostSet(FilterHostsSpec(root, intermediate, hosts).value.kept), host)
    ensures Provided(items, profiles, host)
  {
    var p, h := GateSource(root, intermediate, hosts, host);
    ProvidedByPattern(items, profiles, p);
    var r :| RoutePattern(items, profiles, r) && PatternCovers(r, p);
    CoverTransitive(r, p, host);
    ProvidedByPattern(items, profiles, host);
  }

  /** A kept host passes the gate itself, under its normal form. */
  lemma KeptPassesGate(root: Certificate, intermediate: Certificate, hosts: seq<string>, h: string)
    requires FilterHostsSpec(root, intermediate, hosts).Ok? && h in hosts
    requires PkiHosts.NormalizePattern(h).Ok?
    requires Permitted(root, intermediate, PkiHosts.NormalizePattern(h).value)
    ensures AllowedHost(
              HostSet(FilterHostsSpec(root, intermediate, hosts).value.kept), PkiHosts.NormalizePattern(h).value)
  {
    var p, kept := PkiHosts.NormalizePattern(h).value, FilterHostsSpec(root, intermediate, hosts).value.kept;
    KeptComesFrom(root, intermediate, hosts);
    NormalizedPatterns(hosts);
    assert p in kept && PatternCovers(p, p);
    GateIsCoverage(kept, p);
  }

  /**
   For the host list a deployment runs with: the gate lets through no host without a route exactly when
   every host of the list that the CA keeps is provided in the issuer's normal form.
   */
  lemma GateLeadsToRoutesExactly<B>(
      items: map<string, Profile<B>>, profiles: seq<string>,
      root: Certificate, intermediate: Certificate, hosts: seq<string>)
    requires FilterHostsSpec(root, intermediate, hosts).Ok?
    ensures GateLeadsToRoutes(items, profiles, root, intermediate, hosts)
            <==> KeptAreProvided(items, profiles, root, intermediate, hosts)
  {
    if KeptAreProvided(items, profiles, root, intermediate, hosts) {
      forall host | AllowedHost(HostSet(FilterHostsSpec(root, intermediate, hosts).value.kept), host)
        ensures Provided(items, profiles, host)
      {
        GatedIsProvided(items, profiles, root, intermediate, hosts, host);
      }
    }
    if GateLeadsToRoutes(items, profiles, root, intermediate, hosts) {
      forall h | h in hosts && PkiHosts.NormalizePattern(h).Ok?
                 && Permitted(root, intermediate, PkiHosts.NormalizePattern(h).value)
        ensures Provided(items, profiles, PkiHosts.NormalizePattern(h).value)
      {
        KeptPassesGate(root, intermediate, hosts, h);
      }
    }
  }

  /** Route patterns that stay provided make every validated host list one whose kept hosts are. */
  lemma StayingIsEnough<B>(
      items: map<string, Profile<B>>, profiles: seq<string>,
      root: Certificate, intermediate: Certificate, hosts: seq<string>)
    requires GoodProfiles(items, profiles) && StaysProvided(items, profiles, root, intermediate)
    requires Validated(items, profiles, hosts)
    ensures KeptAreProvided(items, profiles, root, intermediate, hosts)
  {
    ValidatedHosts(items, profiles, hosts);
    forall h | h in hosts && PkiHosts.NormalizePattern(h).Ok?
               && Permitted(root, intermediate, PkiHosts.NormalizePattern(h).value)
      ensures Provided(items, profiles, PkiHosts.NormalizePattern(h).value)
    {
      NormalStaysProvided(items, profiles, root, intermediate, h);
    }
  }

  /** A route pattern is itself a host list that validation accepts. */
  lemma PatternAlone<B>(items: map<string, Profile<B>>, profiles: seq<string>, p: string)
    requires GoodProfiles(items, profiles) && RoutePattern(items, profiles, p)
    ensures Validated(items, profiles, [p])
  {
    var check := Checker(items, profiles);
    PatternsArePlain(items, profiles, p);
    PlainIsFixed(p);
    assert PatternCovers(p, p);
    ProvidedByPattern(items, profiles, p);
    assert check(p) == Ok(p);
    TryEachFixed(check, [p]);
  }

  lemma FilterAlone(root: Certificate, intermediate: Certificate, h: string, p: string)
    requires PkiHosts.NormalizePattern(h) == Ok(p) && Permitted(root, intermediate, p)
    ensures FilterHostsSpec(root, intermediate, [h]) == Ok(Filtered([p], []))
  {
    TryEachOne(PkiHosts.NormalizePattern, h);
    DedupeFixed([p]);
    FilterOne(root, intermediate, p);
  }

  lemma FilterOne(root: Certificate, intermediate: Certificate, p: string)
    requires Permitted(root, intermediate, p)
    ensures Filter([p], Keep(root, intermediate)) == [p] && Filter([p], Drop(root, intermediate)) == []
  {
  }

  /**
   For all host lists at once: whatever list validation accepts, the gate never lets through a host
   without a route, exactly when every route pattern the CA keeps stays provided in the issuer's form.
   */
  lemma EveryListLeadsToRoutes<B>(
      items: map<string, Profile<B>>, profiles: seq<string>, root: Certificate, intermediate: Certificate)
    requires GoodProfiles(items, profiles)
    ensures StaysProvided(items, profiles, root, intermediate)
            <==> forall hosts :: Validated(items, profiles, hosts)
                                 ==> GateLeadsToRoutes(items, profiles, root, intermediate, hosts)
  {
    if StaysProvided(items, profiles, root, intermediate) {
      forall hosts | Validated(items, profiles, hosts)
        ensures GateLeadsToRoutes(items, profiles, root, intermediate, hosts)
      {
        if FilterHostsSpec(root, intermediate, hosts).Ok? {
          StayingIsEnough(items, profiles, root, intermediate, hosts);
          GateLeadsToRoutesExactly(items, profiles, root, intermediate, hosts);
        }
      }
    } else {
      var q :| RoutePattern(items, profiles, q) && PkiHosts.NormalizePattern(q).Ok?
               && Permitted(root, intermediate, PkiHosts.NormalizePattern(q).value)
               && !Provided(items, profiles, PkiHosts.NormalizePattern(q).value);
      PatternAlone(items, profiles, q);
      FilterAlone(root, intermediate, q, PkiHosts.NormalizePattern(q).value);
      assert q in [q];
      GateLeadsToRoutesExactly(items, profiles, root, intermediate, [q]);
      assert !GateLeadsToRoutes(items, profiles, root, intermediate, [q]);
    }
  }

  /** A name with a space in front: the issuer drops the space, the profile package would not. */
  lemma SpacedName(name: string)
    requires PkiHosts.Exact(name)
    ensures var s := " " + name;
            && PkiHosts.NormalizeHost(s) == Ok(name)
            && CleanTail(s)
            && forall c :: c in s ==> c as int <= 127 && c != '*'
  {
    SpaceDropped(name);
    SpacedChars(name);
  }

  lemma SpacedChars(name: string)
    requires PkiHosts.Exact(name)
    ensures forall c :: c in " " + name ==> c as int <= 127 && c != '*'
  {
    PkiHosts.ExactChars(name);
    forall c | c in " " + name ensures c == ' ' || c in name {
      var i :| 0 <= i < |name| + 1 && (" " + name)[i] == c;
      assert i >= 1 ==> name[i-1] in name;
    }
  }

  lemma SpaceDropped(name: string)
    requires PkiHosts.Exact(name)
    ensures PkiHosts.NormalizeHost(" " + name) == Ok(name) && CleanTail(" " + name)
  {
    PkiHosts.ExactIsPlain(name);
    PkiHosts.ExactChars(name);
    assert name[|name|-1] in name && name[0] in name;
    SpaceInFront(name);
    KeepsEnd(" " + name, name);
  }

  lemma SpaceInFront(name: string)
    requires name != "" && !IsSpace(name[0])
    ensures var s := " " + name;
            s[|s|-1] == name[|name|-1] && TrimLeft(s) == name && (ToLower(name) == name ==> ToLower(s) == s)
  {
  }

  /** Lowered, and ending in neither white space nor a dot. */
  predicate CleanTail(s: string) {
    s != "" && ToLower(s) == s && !IsSpace(s[|s|-1]) && s[|s|-1] != '.'
  }

  lemma StarredEnds(s: string)
    requires s != ""
    ensures var p := "*." + s; p != "" && p[0] == '*' && p[|p|-1] == s[|s|-1] && HasPrefix(p, "*.") && p[2..] == s
  {
  }

  lemma StarredLowers(s: string)
    requires ToLower(s) == s
    ensures ToLower("*." + s) == "*." + s
  {
  }

  lemma StarredNormal(s: string, name: string)
    requires CleanTail(s) && PkiHosts.NormalizeHost(s) == Ok(name)
    ensures PkiHosts.NormalizePattern("*." + s) == Ok("*." + name)
  {
    StarredEnds(s);
    StarredLowers(s);
    TrimSpaceFixes("*." + s);
  }

  lemma StarredIsPlain(s: string)
    requires CleanTail(s) && forall c :: c in s ==> c as int <= 127
    ensures Plain("*." + s)
  {
  }

  lemma StarredIsValid(s: string)
    requires CleanTail(s) && forall c :: c in s ==> c as int <= 127 && c != '*'
    ensures ValidRouteHost("*." + s)
  {
    StarredIsPlain(s);
    PlainIsFixed("*." + s);
    StarredEnds(s);
    StarredCount(s);
  }

  lemma StarredCount(s: string)
    requires '*' !in s
    ensures Count("*." + s, "*.") <= 1
  {
    NoPiece(s, "*.");
    assert ("*." + s)[2..] == s;
  }

  lemma {:induction false} NoPiece(s: string, piece: string)
    requires piece != "" && piece[0] !in s
    ensures Count(s, piece) == 0
  {
    if |s| >= |piece| {
      assert s[0] in s;
      NoPiece(s[1..], piece);
    }
  }

  lemma SpacedPatternCovers(name: string)
    ensures PatternCovers("*." + name, "a." + name)
    ensures !PatternCovers("*." + (" " + name), "a." + name) && !PatternCovers("*." + (" " + name), "*." + name)
  {
    var host, spaced := "a." + name, "*." + (" " + name);
    assert ("*." + name)[2..] == name && host[1..] == "." + name;
    assert spaced[2..] == " " + name && |"." + (" " + name)| == |host|;
    assert host[0..] == host && host[0] == 'a' && spaced[0] == '*';
  }

  /** Route patterns without white space right behind a "*." always stay provided. */
  lemma NoSpaceStaysProvided<B>(
      items: map<string, Profile<B>>, profiles: seq<string>, root: Certificate, intermediate: Certificate)
    requires GoodProfiles(items, profiles)
    requires forall p :: RoutePattern(items, profiles, p) ==> NoSpaceBehindStar(p)
    ensures StaysProvided(items, profiles, root, intermediate)
  {
    forall p | RoutePattern(items, profiles, p) && PkiHosts.NormalizePattern(p).Ok?
      ensures Provided(items, profiles, PkiHosts.NormalizePattern(p).value)
    {
      PatternsArePlain(items, profiles, p);
      SpacelessIsFixed(p);
      assert PatternCovers(p, p);
      ProvidedByPattern(items, profiles, p);
    }
  }

  predicate NoSpaceBehindStar(p: string) {
    HasPrefix(p, "*.") && |p| > 2 ==> !IsSpace(p[2])
  }

  lemma SpacelessIsFixed(p: string)
    requires Plain(p) && PkiHosts.NormalizePattern(p).Ok? && NoSpaceBehindStar(p)
    ensures PkiHosts.NormalizePattern(p) == Ok(p)
  {
    PatternOfPlain(p);
    if HasPrefix(p, "*.") && p[2..] != "" {
      assert p[2..][0] == p[2];
      assert p == "*." + p[2..];
    }
  }

  /** Behind the gate the router never answers UnknownHost, so the handler's last arm is dead. */
  lemma GatedRequestsAreKnown<B>(
      items: map<string, Profile<B>>, profiles: seq<string>,
      root: Certificate, intermediate: Certificate, hosts: seq<string>,
      host: string, method_: string, path: string)
    requires forall name :: name in profiles ==> name in items
    requires KeptAreProvided(items, profiles, root, intermediate, hosts)
    requires FilterHostsSpec(root, intermediate, hosts).Ok?
    requires AllowedHost(HostSet(FilterHostsSpec(root, intermediate, hosts).value.kept), host)
    ensures MatchSpec(RoutesOf(items, profiles), host, method_, path).result != UnknownHost
  {
    GatedIsProvided(items, profiles, root, intermediate, hosts, host);
    KnownIsProvided(items, profiles, host, method_, path);
  }

  /** The router knows the host, whatever it answers for the method and the path. */
  predicate Knows<B>(routes: seq<Route<B>>, host: string, method_: string, path: string) {
    MatchSpec(routes, host, method_, path).result != UnknownHost
  }

  /** The router knows every host behind the gate. */
  ghost predicate KnowsAllBehind<B>(routes: seq<Route<B>>, gate: set<string>) {
    forall host, method_, path :: AllowedHost(gate, host) ==> Knows(routes, host, method_, path)
  }

  /** And it is so only then: the router knows every host behind the gate exactly when the kept hosts are provided. */
  lemma GatedRequestsAreKnownExactly<B>(
      items: map<string, Profile<B>>, profiles: seq<string>,
      root: Certificate, intermediate: Certificate, hosts: seq<string>)
    requires forall name :: name in profiles ==> name in items
    requires FilterHostsSpec(root, intermediate, hosts).Ok?
    ensures KnowsAllBehind(
              RoutesOf(items, profiles), HostSet(FilterHostsSpec(root, intermediate, hosts).value.kept))
            <==> KeptAreProvided(items, profiles, root, intermediate, hosts)
  {
    var gate := HostSet(FilterHostsSpec(root, intermediate, hosts).value.kept);
    GateLeadsToRoutesExactly(items, profiles, root, intermediate, hosts);
    KnowsWhatIsProvided(items, profiles, gate);
  }

  lemma KnowsWhatIsProvided<B>(items: map<string, Profile<B>>, profiles: seq<string>, gate: set<string>)
    requires forall name :: name in profiles ==> name in items
    ensures KnowsAllBehind(RoutesOf(items, profiles), gate)
            <==> forall host :: AllowedHost(gate, host) ==> Provided(items, profiles, host)
  {
    var routes := RoutesOf(items, profiles);
    forall host, method_, path ensures Knows(routes, host, method_, path) <==> Provided(items, profiles, host) {
      KnownIsProvided(items, profiles, host, method_, path);
    }
    forall host | KnowsAllBehind(routes, gate) && AllowedHost(gate, host) ensures Provided(items, profiles, host) {
      assert Knows(routes, host, "GET", "/");
    }
  }

  lemma KnownIsProvided<B>(
      items: map<string, Profile<B>>, profiles: seq<string>, host: string, method_: string, path: string)
    requires forall name :: name in profiles ==> name in items
    ensures Knows(RoutesOf(items, profiles), host, method_, path) <==> Provided(items, profiles, host)
  {
    CoveredByProfiles(items, profiles, host);
    UnknownMeansUncovered(RoutesOf(items, profiles), host, method_, path);
  }

  /** A name the issuer would serve passes the TLS gate under the same normal form, so it is never an unknown SNI. */
  lemma AdmittedPassesGate(s: Issuing.Settings, names: seq<string>, call: Issuing.Call)
    requires forall p :: p in names ==> PkiHosts.Pattern(p)
    requires s.hosts == ExactHosts(names) && s.suffixes == Suffixes(names)
    requires Issuing.Admit(s, call).Ok?
    ensures call.hello.Some?
    ensures Profiles.NormalizeHost(call.hello.value) == Ok(Issuing.Admit(s, call).value)
    ensures GatePasses(HostSet(names), call.hello.value)
  {
    GatesAgree(s, names, call.hello.value);
  }

  /**
   End to end: with a host list whose kept hosts are provided, filtered by the CA and loaded, every SNI
   that obtains a leaf after any run passes the TLS gate, and the router knows its host for every method
   and path.
   */
  lemma ServedNamesHaveRoutes<B>(
      items: map<string, Profile<B>>, profiles: seq<string>, hosts: seq<string>,
      root: Certificate, intermediate: Certificate, key: nat, o: Options, loaded: Time,
      calls: seq<Issuing.Call>, method_: string, path: string)
    requires forall name :: name in profiles ==> name in items
    requires KeptAreProvided(items, profiles, root, intermediate, hosts)
    requires FilterHostsSpec(root, intermediate, hosts).Ok?
    requires o.hosts == FilterHostsSpec(root, intermediate, hosts).value.kept && o.hosts != []
    requires LoadSpec(Material(Some(root), Some(intermediate), Some(key)), o, loaded).Ok?
    requires var s := LoadSpec(Material(Some(root), Some(intermediate), Some(key)), o, loaded).value;
             calls != [] && Answer(s, [], calls).Ok?
    ensures var s := LoadSpec(Material(Some(root), Some(intermediate), Some(key)), o, loaded).value;
            var host, hello := Answer(s, [], calls).value.host, calls[|calls|-1].hello;
            && hello.Some?
            && Profiles.NormalizeHost(hello.value) == Ok(host)
            && GatePasses(HostSet(o.hosts), hello.value)
            && MatchSpec(RoutesOf(items, profiles), host, method_, path).result != UnknownHost
  {
    var s := LoadSpec(Material(Some(root), Some(intermediate), Some(key)), o, loaded).value;
    LoadAcceptsKept(root, intermediate, Some(key), hosts, o, loaded);
    KeptComesFrom(root, intermediate, hosts);
    AnswerNamesAdmitted(s, calls);
    AdmittedPassesGate(s, o.hosts, calls[|calls|-1]);
    GatedRequestsAreKnown(
      items, profiles, root, intermediate, hosts, Answer(s, [], calls).value.host, method_, path);
  }

  lemma AnswerNamesAdmitted(s: Issuing.Settings, calls: seq<Issuing.Call>)
    requires s.cacheSize > 0 && calls != [] && Answer(s, [], calls).Ok?
    ensures Issuing.Admit(s, calls[|calls|-1]) == Ok(Answer(s, [], calls).value.host)
  {
    var front, last := calls[..|calls|-1], calls[|calls|-1];
    AfterSound(s, [], front);
    ServedShape(s, After(s, [], front), Issuing.Admit(s, last).value, last.now, last.signing);
  }

  /**
   Who gets a leaf, after any run and when signing works: exactly the names the issuer can normalise
   that pass the TLS gate and both certificates' constraints, while both certificates are valid.
   */
  lemma WhoGetsALeaf(
      s: Issuing.Settings, names: seq<string>, calls: seq<Issuing.Call>, sni: string, now: Time, serial: nat)
    requires forall p :: p in names ==> PkiHosts.Pattern(p)
    requires s.hosts == ExactHosts(names) && s.suffixes == Suffixes(names)
    requires s.leafValidity > 0 && s.cacheSize > 0
    ensures Answer(s, [], calls + [Issuing.Call(Some(sni), now, Issuing.Signs(serial))]).Ok?
            <==> && PkiHosts.NormalizeHost(sni).Ok?
                 && GatePasses(HostSet(names), sni)
                 && NameConstraints.HostAllowed(s.root, PkiHosts.NormalizeHost(sni).value)
                 && NameConstraints.HostAllowed(s.intermediate, PkiHosts.NormalizeHost(sni).value)
                 && ValidAt(s.root, now) == ValidAt(s.intermediate, now) == Inside
  {
    var call := Issuing.Call(Some(sni), now, Issuing.Signs(serial));
    var all := calls + [call];
    assert all[..|all|-1] == calls;
    AfterSound(s, [], calls);
    if Issuing.Admit(s, call).Ok? {
      WorkingCallSucceeds(s, After(s, [], calls), call);
    }
    if PkiHosts.NormalizeHost(sni).Ok? {
      GatesAgree(s, names, sni);
    }
  }

  /**
   The same in terms of the text the client sends: it gets a leaf exactly when the text is a way to write
   an exact name, in whatever case, that some configured pattern covers and both certificates allow, while
   both are valid; and the leaf is for that name.
   */
  lemma WhoGetsALeafByName(
      s: Issuing.Settings, names: seq<string>, calls: seq<Issuing.Call>, sni: string, now: Time, serial: nat, h: string)
    requires forall p :: p in names ==> PkiHosts.Pattern(p)
    requires s.hosts == ExactHosts(names) && s.suffixes == Suffixes(names)
    requires s.leafValidity > 0 && s.cacheSize > 0
    ensures var answer := Answer(s, [], calls + [Issuing.Call(Some(sni), now, Issuing.Signs(serial))]);
            answer.Ok? && answer.value.host == h
            <==> PkiHosts.Exact(h) && Written(sni, h) && CanGetALeaf(s, names, now, h)
  {
    var all := calls + [Issuing.Call(Some(sni), now, Issuing.Signs(serial))];
    PkiHosts.NormalizeHostExactly(sni, h);
    if Answer(s, [], all).Ok? {
      AnswerIsNormal(s, all, sni);
    }
    if PkiHosts.NormalizeHost(sni) == Ok(h) {
      NormalNameGetsALeaf(s, names, calls, sni, now, serial, h);
    }
  }

  /** A configured pattern covers the name, both certificates allow it, and both are valid. */
  predicate CanGetALeaf(s: Issuing.Settings, names: seq<string>, now: Time, h: string) {
    && (exists p :: p in names && Profiles.PatternCovers(p, h))
    && NameConstraints.HostAllowed(s.root, h) && NameConstraints.HostAllowed(s.intermediate, h)
    && s.root.notBefore <= now < s.root.notAfter
    && s.intermediate.notBefore <= now < s.intermediate.notAfter
  }

  lemma NormalNameGetsALeaf(
      s: Issuing.Settings, names: seq<string>, calls: seq<Issuing.Call>, sni: string, now: Time, serial: nat, h: string)
    requires forall p :: p in names ==> PkiHosts.Pattern(p)
    requires s.hosts == ExactHosts(names) && s.suffixes == Suffixes(names)
    requires s.leafValidity > 0 && s.cacheSize > 0 && PkiHosts.NormalizeHost(sni) == Ok(h)
    ensures Answer(s, [], calls + [Issuing.Call(Some(sni), now, Issuing.Signs(serial))]).Ok?
            <==> CanGetALeaf(s, names, now, h)
  {
    WhoGetsALeaf(s, names, calls, sni, now, serial);
    ConditionByName(s, names, sni, now, h);
  }

  lemma ConditionByName(s: Issuing.Settings, names: seq<string>, sni: string, now: Time, h: string)
    requires forall p :: p in names ==> PkiHosts.Pattern(p)
    requires PkiHosts.NormalizeHost(sni) == Ok(h)
    ensures CanGetALeaf(s, names, now, h)
            <==> && GatePasses(HostSet(names), sni)
                 && NameConstraints.HostAllowed(s.root, h) && NameConstraints.HostAllowed(s.intermediate, h)
                 && ValidAt(s.root, now) == ValidAt(s.intermediate, now) == Inside
  {
    GateByName(names, sni, h);
  }

  lemma AnswerIsNormal(s: Issuing.Settings, calls: seq<Issuing.Call>, sni: string)
    requires s.cacheSize > 0 && calls != [] && Answer(s, [], calls).Ok? && calls[|calls|-1].hello == Some(sni)
    ensures PkiHosts.NormalizeHost(sni) == Ok(Answer(s, [], calls).value.host)
  {
    AnswerNamesAdmitted(s, calls);
  }

  lemma GateByName(names: seq<string>, sni: string, h: string)
    requires forall p :: p in names ==> PkiHosts.Pattern(p)
    requires PkiHosts.NormalizeHost(sni) == Ok(h)
    ensures GatePasses(HostSet(names), sni) <==> exists p :: p in names && Profiles.PatternCovers(p, h)
  {
    NormalizersAgree(sni);
    GateIsCoverage(names, h);
  }

  // ---------------------------------------------------------------- a fresh deployment works

  /** One enabled profile with one route, for one host. */
  function MinimalProfiles<B>(name: string, body: B): map<string, Profile<B>> {
    map["p" := Profile("p", [Route("p", [name], "/", ["GET"], 200, "", "", "", body)])]
  }

  lemma MinimalProfilesAreGood<B>(pattern: string, body: B)
    requires ValidRouteHost(pattern)
    ensures GoodProfiles(MinimalProfiles(pattern, body), ["p"])
    ensures forall h :: RoutePattern(MinimalProfiles(pattern, body), ["p"], h) <==> h == pattern
  {
    var items, profiles := MinimalProfiles(pattern, body), ["p"];
    var routes := items["p"].routes;
    assert pattern in routes[0].hosts;
    assert profiles[0] in profiles && profiles[0] in items && pattern in RouteHosts(routes);
    assert forall h :: h in RouteHosts(routes) ==> h == pattern;
  }

  lemma ExactIsValid(name: string)
    requires PkiHosts.Exact(name)
    ensures ValidRouteHost(name) && !HasPrefix(name, "*.")
  {
    PkiHosts.ExactChars(name);
    Gates.PatternIsFixed(name);
    PlainIsFixed(name);
    NoPiece(name, "*.");
    assert name[0] in name;
  }

  lemma MinimalStaysProvided<B>(name: string, body: B, root: Certificate, intermediate: Certificate)
    requires PkiHosts.Exact(name)
    ensures StaysProvided(MinimalProfiles(name, body), ["p"], root, intermediate)
  {
    ExactIsValid(name);
    MinimalProfilesAreGood(name, body);
    NoSpaceStaysProvided(MinimalProfiles(name, body), ["p"], root, intermediate);
  }

  lemma MinimalHosts(name: string, now: Time, rk: nat, ik: nat, o: Options)
    requires PkiHosts.Exact(name) && o.hosts == [name]
    ensures var a := NewAuthority([name], now, 0, 0, rk, ik);
            && FilterHostsSpec(a.root, a.intermediate, [name]) == Ok(Filtered([name], []))
            && LoadSpec(Material(Some(a.root), Some(a.intermediate), Some(ik)), o, now)
               == Ok(NewSettings(a.root, a.intermediate, [name], o))
  {
    var a := NewAuthority([name], now, 0, 0, rk, ik);
    PkiHosts.ExactIsPlain(name);
    InitReject([name], now, 0, 0, rk, ik, now);
    InitWindow([name], now, 0, 0, rk, ik);
    assert Under(name, name) && name in [name];
    InitPermits(a.root, name);
    InitPermits(a.intermediate, name);
    FilterAlone(a.root, a.intermediate, name, name);
    LoadAcceptsKept(a.root, a.intermediate, Some(ik), [name], o, now);
  }

  /**
   The chain is not vacuous: for every exact name and instant, a CA made for the name, a profile that
   routes it and a host list that names it validate, load and serve the name at that very instant.
   */
  lemma FreshDeploymentServes<B>(name: string, body: B, now: Time, rk: nat, ik: nat, o: Options, serial: nat)
    requires PkiHosts.Exact(name) && o.hosts == [name]
    ensures var items, a := MinimalProfiles(name, body), NewAuthority([name], now, 0, 0, rk, ik);
            var loaded := LoadSpec(Material(Some(a.root), Some(a.intermediate), Some(ik)), o, now);
            && GoodProfiles(items, ["p"]) && StaysProvided(items, ["p"], a.root, a.intermediate)
            && Validated(items, ["p"], [name]) && KeptAreProvided(items, ["p"], a.root, a.intermediate, [name])
            && FilterHostsSpec(a.root, a.intermediate, [name]) == Ok(Filtered([name], []))
            && loaded.Ok?
            && Answer(loaded.value, [], [Issuing.Call(Some(name), now, Issuing.Signs(serial))]).Ok?
  {
    var items, a := MinimalProfiles(name, body), NewAuthority([name], now, 0, 0, rk, ik);
    ExactIsValid(name);
    MinimalProfilesAreGood(name, body);
    PatternAlone(items, ["p"], name);
    MinimalStaysProvided(name, body, a.root, a.intermediate);
    StayingIsEnough(items, ["p"], a.root, a.intermediate, [name]);
    MinimalHosts(name, now, rk, ik, o);
    MinimalAnswer(name, now, rk, ik, o, serial);
  }

  lemma MinimalAnswer(name: string, now: Time, rk: nat, ik: nat, o: Options, serial: nat)
    requires PkiHosts.Exact(name) && o.hosts == [name]
    ensures var a := NewAuthority([name], now, 0, 0, rk, ik);
            Answer(NewSettings(a.root, a.intermediate, [name], o), [],
                   [Issuing.Call(Some(name), now, Issuing.Signs(serial))]).Ok?
  {
    var a := NewAuthority([name], now, 0, 0, rk, ik);
    var s, call := NewSettings(a.root, a.intermediate, [name], o), Issuing.Call(Some(name), now, Issuing.Signs(serial));
    PkiHosts.ExactIsPlain(name);
    InitWindow([name], now, 0, 0, rk, ik);
    assert NameConstraints.HostAllowed(a.root, name) && NameConstraints.HostAllowed(a.intermediate, name) by {
      ExactConstraint(name, name);
      assert name in a.root.permitted && Under(name, name);
    }
    assert GatePasses(HostSet([name]), name) by {
      GateIsCoverage([name], name);
      NormalizersAgree(name);
      assert Profiles.PatternCovers(name, name);
    }
    WhoGetsALeaf(s, [name], [], name, now, serial);
    assert [] + [call] == [call];
  }

  // ---------------------------------------------------------------- a deployment in which the condition fails

  /** The only pattern of a minimal profile decides what it provides. */
  lemma MinimalProvides<B>(pattern: string, body: B, host: string)
    requires ValidRouteHost(pattern)
    ensures Provided(MinimalProfiles(pattern, body), ["p"], host) <==> PatternCovers(pattern, host)
  {
    MinimalProfilesAreGood(pattern, body);
    ProvidedByPattern(MinimalProfiles(pattern, body), ["p"], host);
  }

  lemma WildcardPermitted(name: string, now: Time, rk: nat, ik: nat)
    requires PkiHosts.Exact(name)
    ensures var a := NewAuthority([name], now, 0, 0, rk, ik); Permitted(a.root, a.intermediate, "*." + name)
  {
    var a, pattern := NewAuthority([name], now, 0, 0, rk, ik), "*." + name;
    WildcardUnderName(name);
    assert forall d :: d in [name] <==> d == name;
    InitPermits(a.root, pattern);
    InitPermits(a.intermediate, pattern);
  }

  lemma WildcardUnderName(name: string)
    requires PkiHosts.Exact(name)
    ensures PkiHosts.Pattern("*." + name) && Under("*." + name, name)
  {
    var pattern := "*." + name;
    assert pattern[2..] == name && pattern[1..] == "." + name;
  }

  lemma WildcardGate(name: string)
    requires PkiHosts.Exact(name)
    ensures AllowedHost(HostSet(["*." + name]), "a." + name)
  {
    var pattern := "*." + name;
    assert pattern[2..] == name;
    assert PkiHosts.Pattern(pattern);
    SpacedPatternCovers(name);
    GateIsCoverage([pattern], "a." + name);
  }

  /**
   The condition can fail, and the gate then lets a name through that the router does not know. For
   every exact name: validateRoute accepts the pattern with a space behind its "*.", validation accepts
   it as the host list, the issuer reads it without the space and keeps it, and a name below passes the
   gate built from what was kept but has no route.
   */
  lemma SpacedPatternEscapes<B>(name: string, body: B, now: Time, rk: nat, ik: nat)
    requires PkiHosts.Exact(name)
    ensures var spaced, wildcard, host := "*." + (" " + name), "*." + name, "a." + name;
            var items, a := MinimalProfiles(spaced, body), NewAuthority([name], now, 0, 0, rk, ik);
            && ValidRouteHost(spaced) && GoodProfiles(items, ["p"]) && Validated(items, ["p"], [spaced])
            && FilterHostsSpec(a.root, a.intermediate, [spaced]) == Ok(Filtered([wildcard], []))
            && AllowedHost(HostSet([wildcard]), host)
            && !StaysProvided(items, ["p"], a.root, a.intermediate)
            && MatchSpec(RoutesOf(items, ["p"]), host, "GET", "/").result == UnknownHost
  {
    var spaced, wildcard, host := "*." + (" " + name), "*." + name, "a." + name;
    var items, a := MinimalProfiles(spaced, body), NewAuthority([name], now, 0, 0, rk, ik);
    SpacedName(name);
    StarredIsValid(" " + name);
    StarredNormal(" " + name, name);
    MinimalProfilesAreGood(spaced, body);
    PatternAlone(items, ["p"], spaced);
    WildcardPermitted(name, now, rk, ik);
    FilterAlone(a.root, a.intermediate, spaced, wildcard);
    WildcardGate(name);
    SpacedPatternCovers(name);
    assert !Provided(items, ["p"], wildcard) by { MinimalProvides(spaced, body, wildcard); }
    assert !Provided(items, ["p"], host) by { MinimalProvides(spaced, body, host); }
    KnownIsProvided(items, ["p"], host, "GET", "/");
  }
}
