/** The host part of Config.Validate, and validHostname (internal/config/config.go). */
module Config {
  import opened Results
  import opened GoStrings
  import opened Seqs
  import opened Profiles
  import opened Sorting
  import PkiHosts

  datatype ConfigError =
    | BadHostname
    | NoProfiles
    | UnknownProfile(name: string)
    | NoHosts
    | BadHost(cause: HostError)
    | NotProvided(host: string)

  predicate ValidHostname(value: string) {
    value != "" ==>
      && |value| <= PkiHosts.MAX_NAME
      && forall part :: part in Split(value, '.') ==> PkiHosts.ValidLabel(part)
  }

  /** The hostnames the configuration accepts are the empty one and the names the issuer's normaliser leaves alone. */
  lemma HostnamesAreFixedPoints(value: string)
    ensures ValidHostname(value) <==> value == "" || PkiHosts.NormalizeHost(value) == Ok(value)
  {
    PkiHosts.NormalizeHostFixedPoints(value);
    if ValidHostname(value) && value != "" {
      ValidLabelsAreExact(value);
    }
  }

  lemma ValidLabelsAreExact(value: string)
    requires value != "" && ValidHostname(value)
    ensures PkiHosts.Exact(value)
  {
    forall c | c in value ensures c !in "*/:\\" {
      if c != '.' {
        SplitKeepsChar(value, '.', c);
        var part :| part in Split(value, '.') && c in part;
      }
    }
  }

  /** Some enabled profile has a route for the host. */
  predicate Provided<B>(items: map<string, Profile<B>>, profiles: seq<string>, host: string) {
    exists name :: name in profiles && name in items && ProfileMatchesHost(items[name], host)
  }

  /** A host's normal form, if an enabled profile provides it. */
  function CheckHost<B>(items: map<string, Profile<B>>, profiles: seq<string>, host: string)
    : Result<string, ConfigError>
  {
    match NormalizeHost(host)
    case Err(e) => Err(BadHost(e))
    case Ok(h) => if Provided(items, profiles, h) then Ok(h) else Err(NotProvided(h))
  }

  function Checker<B>(items: map<string, Profile<B>>, profiles: seq<string>): string -> Result<string, ConfigError> {
    host => CheckHost(items, profiles, host)
  }

  function RouteHosts<B>(routes: seq<Route<B>>): set<string> {
    set i, h | 0 <= i < |routes| && h in routes[i].hosts :: h
  }

  function ProvidedHosts<B>(items: map<string, Profile<B>>, profiles: seq<string>): set<string> {
    set name, h | name in profiles && name in items && h in RouteHosts(items[name].routes) :: h
  }

  /** Ascending, without repeats, and exactly the members of the set. */
  ghost predicate Lists(s: seq<string>, all: set<string>) {
    Sorted(s) && Distinct(s) && forall x :: x in s <==> x in all
  }

  function FindProfile<B>(items: map<string, Profile<B>>): string -> Result<string, ConfigError> {
    name => if name in items then Ok(name) else Err(UnknownProfile(name))
  }

  /** What is wrong before the host list is looked at. */
  function Prerequisite<B>(items: map<string, Profile<B>>, profiles: seq<string>, hostname: string)
    : Option<ConfigError>
  {
    if !ValidHostname(hostname) then Some(BadHostname)
    else if profiles == [] then Some(NoProfiles)
    else
      match TryEach(FindProfile(items), profiles)
      case Err(e) => Some(e)
      case Ok(_) => None
  }

  function CheckedHosts<B>(items: map<string, Profile<B>>, profiles: seq<string>, hosts: seq<string>)
    : Result<seq<string>, ConfigError>
  {
    if hosts == [] then Err(NoHosts) else TryEach(Checker(items, profiles), hosts)
  }

  /**
   What the loop over the hosts leaves behind: an entry is overwritten with its normal form, if it has
   one, as long as all entries before it passed; so also the first that fails by being provided nowhere.
   */
  predicate Overwritten<B>(
      items: map<string, Profile<B>>, profiles: seq<string>, given: seq<string>, hosts: seq<string>)
  {
    && |hosts| == |given|
    && forall i :: 0 <= i < |given| ==>
         hosts[i] == if TryEach(Checker(items, profiles), given[..i]).Ok? && NormalizeHost(given[i]).Ok?
                     then NormalizeHost(given[i]).value else given[i]
  }

  /** The first `i` entries have passed and hold their normal forms, and the others are as they were. */
  predicate Passed<B>(
      items: map<string, Profile<B>>, profiles: seq<string>, given: seq<string>, hosts: seq<string>, i: nat)
  {
    && i <= |given| == |hosts|
    && TryEach(Checker(items, profiles), given[..i]) == Ok(hosts[..i])
    && hosts[i..] == given[i..]
  }

  lemma PassedMore<B>(
      items: map<string, Profile<B>>, profiles: seq<string>, given: seq<string>, hosts: seq<string>, i: nat, h: string)
    requires Passed(items, profiles, given, hosts, i) && i < |given|
    requires CheckHost(items, profiles, given[i]) == Ok(h)
    ensures Passed(items, profiles, given, hosts[i := h], i + 1)
  {
    assert given[..i+1][..i] == given[..i];
    assert hosts[i := h][..i+1] == hosts[..i] + [h];
    assert given[i+1..] == given[i..][1..] && hosts[i := h][i+1..] == hosts[i..][1..];
  }

  /** When one entry fails, those before it are normal forms, itself if it has one, and the rest is as it was. */
  lemma FailedAt<B>(
      items: map<string, Profile<B>>, profiles: seq<string>, given: seq<string>, hosts: seq<string>, i: nat, h: string)
    requires Passed(items, profiles, given, hosts, i) && i < |given|
    requires CheckHost(items, profiles, given[i]).Err?
    requires h == if NormalizeHost(given[i]).Ok? then NormalizeHost(given[i]).value else given[i]
    ensures TryEach(Checker(items, profiles), given) == Err(CheckHost(items, profiles, given[i]).error)
    ensures Overwritten(items, profiles, given, hosts[i := h])
  {
    var check := Checker(items, profiles);
    FailsFrom(items, profiles, given, hosts, i, |given|);
    assert given[..|given|] == given;
    forall j | 0 <= j < |given|
      ensures hosts[i := h][j] == if TryEach(check, given[..j]).Ok? && NormalizeHost(given[j]).Ok?
                                  then NormalizeHost(given[j]).value else given[j]
    {
      if j < i {
        PassedAt(items, profiles, given, hosts, i, j);
      } else if j > i {
        FailsFrom(items, profiles, given, hosts, i, j);
        assert hosts[j] == hosts[i..][j-i] && given[j] == given[i..][j-i];
      }
    }
  }

  /** Every longer prefix fails as the first failing entry does. */
  lemma FailsFrom<B>(
      items: map<string, Profile<B>>, profiles: seq<string>, given: seq<string>, hosts: seq<string>, i: nat, j: nat)
    requires Passed(items, profiles, given, hosts, i) && i < j <= |given|
    requires CheckHost(items, profiles, given[i]).Err?
    ensures TryEach(Checker(items, profiles), given[..j]) == Err(CheckHost(items, profiles, given[i]).error)
  {
    var check := Checker(items, profiles);
    assert given[..i+1][..i] == given[..i];
    assert given[..j][..i+1] == given[..i+1];
    TryEachFails(check, given[..j], i + 1);
  }

  lemma PassedAt<B>(
      items: map<string, Profile<B>>, profiles: seq<string>, given: seq<string>, hosts: seq<string>, i: nat, j: nat)
    requires Passed(items, profiles, given, hosts, i) && j < i
    ensures TryEach(Checker(items, profiles), given[..j]).Ok? && NormalizeHost(given[j]) == Ok(hosts[j])
  {
    var check := Checker(items, profiles);
    assert given[..i][..j] == given[..j];
    if TryEach(check, given[..j]).Err? {
      TryEachFails(check, given[..i], j);
    }
    TryEachElement(check, given[..i]);
    assert given[..i][j] == given[j] && hosts[..i][j] == hosts[j];
    assert check(given[j]) == Ok(hosts[j]);
  }

  lemma PassedAll<B>(items: map<string, Profile<B>>, profiles: seq<string>, given: seq<string>, hosts: seq<string>)
    requires Passed(items, profiles, given, hosts, |given|)
    ensures TryEach(Checker(items, profiles), given) == Ok(hosts) && Overwritten(items, profiles, given, hosts)
  {
    assert given[..|given|] == given && hosts[..|hosts|] == hosts;
    forall j | 0 <= j < |given|
      ensures TryEach(Checker(items, profiles), given[..j]).Ok? && NormalizeHost(given[j]) == Ok(hosts[j])
    {
      PassedAt(items, profiles, given, hosts, |given|, j);
    }
  }

  class Config<B> {
    const items: map<string, Profile<B>>
    const profiles: seq<string>
    const hostname: string
    var hosts: seq<string>

    constructor (items: map<string, Profile<B>>, profiles: seq<string>, hostname: string, hosts: seq<string>)
      ensures this.items == items && this.profiles == profiles
      ensures this.hostname == hostname && this.hosts == hosts
    {
      this.items, this.profiles, this.hostname, this.hosts := items, profiles, hostname, hosts;
    }

    /** The hosts of all routes of the enabled profiles, collected in a set and sorted. */
    method DeriveHosts() returns (derived: seq<string>)
      ensures Lists(derived, ProvidedHosts(items, profiles))
    {
      var all: set<string> := {};
      for i := 0 to |profiles|
        invariant all == ProvidedHosts(items, profiles[..i])
      {
        assert profiles[..i+1] == profiles[..i] + [profiles[i]];
        if profiles[i] in items {
          all := all + RouteHosts(items[profiles[i]].routes);
        }
      }
      assert profiles[..|profiles|] == profiles;
      derived := [];
      var rest := all;
      while rest != {}
        invariant rest <= all && Distinct(derived)
        invariant forall x :: x in derived <==> x in all && x !in rest
      {
        var host :| host in rest;
        derived := derived + [host];
        rest := rest - {host};
      }
      SortStringsSorts(derived);
      SortKeepsDistinct(derived);
      derived := SortStrings(derived);
    }

    /** `given` is the list that is checked: the configured one or, when that is empty, the derived one. */
    method ValidateHosts() returns (err: Option<ConfigError>, ghost given: seq<string>)
      modifies this`hosts
      ensures var wrong := Prerequisite(items, profiles, hostname);
              if wrong.Some? then
                err == wrong && hosts == old(hosts)
              else
                && (if old(hosts) != [] then given == old(hosts) else Lists(given, ProvidedHosts(items, profiles)))
                && Overwritten(items, profiles, given, hosts)
                && match err
                   case None => CheckedHosts(items, profiles, given) == Ok(hosts)
                   case Some(e) => CheckedHosts(items, profiles, given) == Err(e)
    {
      given := hosts;
      if !ValidHostname(hostname) {
        return Some(BadHostname), given;
      }
      if |profiles| == 0 {
        return Some(NoProfiles), given;
      }
      for i := 0 to |profiles|
        invariant TryEach(FindProfile(items), profiles[..i]).Ok?
      {
        assert profiles[..i+1][..i] == profiles[..i];
        if profiles[i] !in items {
          TryEachFails(FindProfile(items), profiles, i + 1);
          return Some(UnknownProfile(profiles[i])), given;
        }
      }
      assert profiles[..|profiles|] == profiles;
      if |hosts| == 0 {
        hosts := DeriveHosts();
      }
      given := hosts;
      if |hosts| == 0 {
        return Some(NoHosts), given;
      }
      err := NormalizeInPlace();
    }

    /** The loop that overwrites each host with its normal form, up to the first host that fails. */
    method NormalizeInPlace() returns (err: Option<ConfigError>)
      modifies this`hosts
      ensures err == None ==> TryEach(Checker(items, profiles), old(hosts)) == Ok(hosts)
      ensures err.Some? ==> TryEach(Checker(items, profiles), old(hosts)) == Err(err.value)
      ensures Overwritten(items, profiles, old(hosts), hosts)
    {
      ghost var given := hosts;
      for i := 0 to |hosts|
        invariant Passed(items, profiles, given, hosts, i)
      {
        assert hosts[i] == hosts[i..][0] == given[i..][0] == given[i];
        ghost var before := hosts;
        var normalized := NormalizeHost(hosts[i]);
        if normalized.Err? {
          FailedAt(items, profiles, given, hosts, i, hosts[i]);
          assert hosts[i := hosts[i]] == hosts;
          return Some(BadHost(normalized.error));
        }
        hosts := hosts[i := normalized.value];
        if !Provided(items, profiles, normalized.value) {
          FailedAt(items, profiles, given, before, i, normalized.value);
          return Some(NotProvided(normalized.value));
        }
        PassedMore(items, profiles, given, before, i, normalized.value);
      }
      PassedAll(items, profiles, given, hosts);
      return None;
    }
  }

  lemma SortKeepsDistinct(s: seq<string>)
    requires Distinct(s)
    ensures Distinct(SortStrings(s)) && forall x :: x in SortStrings(s) <==> x in s
  {
    SortStringsSorts(s);
    var r := SortStrings(s);
    forall x ensures x in r <==> x in s {
      assert x in multiset(r) <==> x in multiset(s);
    }
    forall x ensures multiset(r)[x] <= 1 {
      DistinctCounts(s, x);
    }
    CountsDistinct(r);
  }

  lemma {:induction false} CountsDistinct(s: seq<string>)
    requires forall x :: multiset(s)[x] <= 1
    ensures Distinct(s)
  {
    if s != [] {
      TailMultiset(s);
      CountsDistinct(s[1..]);
      forall j | 0 < j < |s| ensures s[0] != s[j] {
        assert s[j] in multiset(s[1..]);
      }
      assert s == [s[0]] + s[1..];
    }
  }

  lemma {:induction false} DistinctCounts(s: seq<string>, x: string)
    requires Distinct(s)
    ensures multiset(s)[x] <= 1
  {
    if s != [] {
      DistinctCounts(s[1..], x);
      assert s == [s[0]] + s[1..];
    }
  }

  // ---------------------------------------------------------------- what validation leaves behind

  /** Every enabled profile exists, has a route, and its routes passed validateRoute. */
  predicate GoodProfiles<B>(items: map<string, Profile<B>>, profiles: seq<string>) {
    forall name :: name in profiles ==>
      && name in items
      && items[name].routes != []
      && forall i :: 0 <= i < |items[name].routes| ==> ValidRoute(items[name].routes[i])
  }

  /** A pattern of some route of an enabled profile. */
  predicate RoutePattern<B>(items: map<string, Profile<B>>, profiles: seq<string>, p: string) {
    p in ProvidedHosts(items, profiles)
  }

  lemma ProvidedByPattern<B>(items: map<string, Profile<B>>, profiles: seq<string>, host: string)
    ensures Provided(items, profiles, host)
            <==> exists p :: RoutePattern(items, profiles, p) && PatternCovers(p, host)
  {
    if Provided(items, profiles, host) {
      var name :| name in profiles && name in items && ProfileMatchesHost(items[name], host);
      var i :| 0 <= i < |items[name].routes| && RouteHasHost(items[name].routes[i], host);
      var p :| p in items[name].routes[i].hosts && PatternCovers(p, host);
      assert p in RouteHosts(items[name].routes);
      assert RoutePattern(items, profiles, p);
    }
    if p :| RoutePattern(items, profiles, p) && PatternCovers(p, host) {
      var name :| name in profiles && name in items && p in RouteHosts(items[name].routes);
      var i :| 0 <= i < |items[name].routes| && p in items[name].routes[i].hosts;
      assert RouteHasHost(items[name].routes[i], host);
    }
  }

  lemma PatternsArePlain<B>(items: map<string, Profile<B>>, profiles: seq<string>, p: string)
    requires GoodProfiles(items, profiles) && RoutePattern(items, profiles, p)
    ensures Plain(p)
  {
    var name :| name in profiles && name in items && p in RouteHosts(items[name].routes);
    var i :| 0 <= i < |items[name].routes| && p in items[name].routes[i].hosts;
    assert ValidRoute(items[name].routes[i]) && ValidRouteHost(p);
    PlainIsFixed(p);
  }

  /** A normal form that some pattern in normal form covers is a fixed point of the normaliser. */
  lemma CoveredIsPlain(host: string, h: string, p: string)
    requires NormalizeHost(host) == Ok(h) && Plain(p) && PatternCovers(p, h)
    ensures Plain(h)
  {
    var t := TrimSuffix(TrimSpace(host), ".");
    CoveredEnds(p, h);
    TrimSpaceTrims(host);
    LowerIsPlain(t);
    assert h[0] == LowerChar(t[0]) && t[0] == TrimSpace(host)[0];
  }

  lemma CoveredIsFixed<B>(items: map<string, Profile<B>>, profiles: seq<string>, host: string, h: string)
    requires GoodProfiles(items, profiles) && NormalizeHost(host) == Ok(h) && Provided(items, profiles, h)
    ensures NormalizeHost(h) == Ok(h) && Plain(h)
  {
    ProvidedByPattern(items, profiles, h);
    var p :| RoutePattern(items, profiles, p) && PatternCovers(p, h);
    PatternsArePlain(items, profiles, p);
    CoveredIsPlain(host, h, p);
    PlainIsFixed(h);
  }

  /** What survives validation is its own normal form, so validating again changes nothing. */
  lemma ValidateIdempotent<B>(items: map<string, Profile<B>>, profiles: seq<string>, hosts: seq<string>)
    requires GoodProfiles(items, profiles) && TryEach(Checker(items, profiles), hosts).Ok?
    ensures var valid := TryEach(Checker(items, profiles), hosts).value;
            && (forall h :: h in valid ==> NormalizeHost(h) == Ok(h) && Provided(items, profiles, h))
            && TryEach(Checker(items, profiles), valid) == Ok(valid)
  {
    var check := Checker(items, profiles);
    var valid := TryEach(check, hosts).value;
    TryEachElement(check, hosts);
    forall h | h in valid
      ensures NormalizeHost(h) == Ok(h) && Provided(items, profiles, h) && check(h) == Ok(h)
    {
      var i :| 0 <= i < |valid| && valid[i] == h;
      assert check(hosts[i]) == Ok(h);
      CoveredIsFixed(items, profiles, hosts[i], h);
    }
    TryEachFixed(check, valid);
  }

  /** Hosts derived from validated profiles always pass the coverage check, unchanged. */
  lemma DerivedHostsPass<B>(items: map<string, Profile<B>>, profiles: seq<string>, derived: seq<string>)
    requires GoodProfiles(items, profiles) && profiles != []
    requires Lists(derived, ProvidedHosts(items, profiles))
    ensures derived != [] && TryEach(Checker(items, profiles), derived) == Ok(derived)
  {
    var check := Checker(items, profiles);
    forall h | h in derived ensures check(h) == Ok(h) {
      var name :| name in profiles && name in items && h in RouteHosts(items[name].routes);
      var i :| 0 <= i < |items[name].routes| && h in items[name].routes[i].hosts;
      assert ValidRoute(items[name].routes[i]) && ValidRouteHost(h);
      assert PatternCovers(h, h);
      assert RouteHasHost(items[name].routes[i], h);
    }
    TryEachFixed(check, derived);
    SomeHostProvided(items, profiles);
  }

  lemma SomeHostProvided<B>(items: map<string, Profile<B>>, profiles: seq<string>)
    requires GoodProfiles(items, profiles) && profiles != []
    ensures ProvidedHosts(items, profiles) != {}
  {
    var name := profiles[0];
    var routes := items[name].routes;
    assert ValidRoute(routes[0]) && routes[0].hosts[0] in routes[0].hosts;
    assert routes[0].hosts[0] in RouteHosts(routes);
    assert routes[0].hosts[0] in ProvidedHosts(items, profiles);
  }

  // ---------------------------------------------------------------- which host lists pass

  /** A host passes exactly when it has a normal form that some route pattern covers, and is replaced by it. */
  lemma PassesExactly<B>(items: map<string, Profile<B>>, profiles: seq<string>, host: string, h: string)
    ensures CheckHost(items, profiles, host) == Ok(h)
            <==> && NormalizeHost(host) == Ok(h)
                 && exists p :: RoutePattern(items, profiles, p) && PatternCovers(p, h)
  {
    ProvidedByPattern(items, profiles, h);
  }

  /** The route patterns are the hosts that some route of some enabled profile names. */
  lemma RoutePatternsAre<B>(items: map<string, Profile<B>>, profiles: seq<string>, p: string)
    ensures RoutePattern(items, profiles, p)
            <==> exists name, i ::
                   && name in profiles && name in items
                   && 0 <= i < |items[name].routes| && p in items[name].routes[i].hosts
  {
    if RoutePattern(items, profiles, p) {
      var name :| name in profiles && name in items && p in RouteHosts(items[name].routes);
      var i :| 0 <= i < |items[name].routes| && p in items[name].routes[i].hosts;
    }
    if name, i :| name in profiles && name in items
                  && 0 <= i < |items[name].routes| && p in items[name].routes[i].hosts
    {
      assert p in RouteHosts(items[name].routes);
    }
  }

  /** Every host has a normal form that some route pattern covers. */
  ghost predicate AllCovered<B>(items: map<string, Profile<B>>, profiles: seq<string>, hosts: seq<string>) {
    forall i :: 0 <= i < |hosts| ==>
      && NormalizeHost(hosts[i]).Ok?
      && exists p :: RoutePattern(items, profiles, p) && PatternCovers(p, NormalizeHost(hosts[i]).value)
  }

  /**
   A host list passes exactly when it is not empty and every host has a normal form that some route
   pattern covers, wildcards included; it then becomes those normal forms, in order.
   */
  lemma ListPassesExactly<B>(items: map<string, Profile<B>>, profiles: seq<string>, hosts: seq<string>)
    ensures CheckedHosts(items, profiles, hosts).Ok? <==> hosts != [] && AllCovered(items, profiles, hosts)
    ensures CheckedHosts(items, profiles, hosts).Ok? ==>
              var passed := CheckedHosts(items, profiles, hosts).value;
              |passed| == |hosts| && forall i :: 0 <= i < |hosts| ==> NormalizeHost(hosts[i]) == Ok(passed[i])
  {
    var check := Checker(items, profiles);
    TryEachExactly(check, hosts);
    forall i | 0 <= i < |hosts|
      ensures check(hosts[i]).Ok?
              <==> && NormalizeHost(hosts[i]).Ok?
                   && exists p :: RoutePattern(items, profiles, p) && PatternCovers(p, NormalizeHost(hosts[i]).value)
    {
      if NormalizeHost(hosts[i]).Ok? {
        PassesExactly(items, profiles, hosts[i], NormalizeHost(hosts[i]).value);
      }
    }
    if TryEach(check, hosts).Ok? {
      TryEachElement(check, hosts);
    }
  }

  /** Why a list fails: it is empty, or its first host that fails has no normal form or none that is provided. */
  lemma ListFailsBecause<B>(items: map<string, Profile<B>>, profiles: seq<string>, hosts: seq<string>)
    requires CheckedHosts(items, profiles, hosts).Err?
    ensures var e := CheckedHosts(items, profiles, hosts).error;
            || (hosts == [] && e == NoHosts)
            || exists k ::
                 && 0 <= k < |hosts| && AllCovered(items, profiles, hosts[..k])
                 && match NormalizeHost(hosts[k])
                    case Err(cause) => e == BadHost(cause)
                    case Ok(h) => e == NotProvided(h) && !Provided(items, profiles, h)
  {
    var check := Checker(items, profiles);
    if hosts != [] {
      TryEachExactly(check, hosts);
      var k :| 0 <= k < |hosts| && check(hosts[k]) == Err(TryEach(check, hosts).error)
               && forall i :: 0 <= i < k ==> check(hosts[i]).Ok?;
      if k > 0 {
        TryEachExactly(check, hosts[..k]);
        ListPassesExactly(items, profiles, hosts[..k]);
      }
    }
  }

  /** What must hold before the host list is looked at, and which unknown profile is named. */
  lemma PrerequisiteExactly<B>(items: map<string, Profile<B>>, profiles: seq<string>, hostname: string)
    ensures var wrong := Prerequisite(items, profiles, hostname);
            && (wrong == None
                <==> ValidHostname(hostname) && profiles != [] && forall name :: name in profiles ==> name in items)
            && (wrong == Some(BadHostname) <==> !ValidHostname(hostname))
            && (wrong == Some(NoProfiles) <==> ValidHostname(hostname) && profiles == [])
            && forall name :: wrong == Some(UnknownProfile(name)) ==>
                 exists k :: 0 <= k < |profiles| && profiles[k] == name && name !in items
                             && forall i :: 0 <= i < k ==> profiles[i] in items
  {
    TryEachExactly(FindProfile(items), profiles);
    var find := FindProfile(items);
    assert forall i :: 0 <= i < |profiles| ==> (find(profiles[i]).Ok? <==> profiles[i] in items);
    assert forall name :: name in profiles <==> exists i :: 0 <= i < |profiles| && profiles[i] == name;
  }
}
