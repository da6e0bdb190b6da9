/** pki.Load and the certificates of pki.Init (internal/pki/pki.go). */
module Loading {
  import opened Results
  import opened GoStrings
  import opened Seqs
  import opened PkiHosts
  import opened Certificates
  import opened NameConstraints
  import opened PatternLists
  import Issuing
  import Profiles
  import opened CachingIssuer

  datatype LoadError =
    | BadHosts(cause: HostError)
    | BadRoot | BadIntermediate | BadKey
    | KeyMismatch
    | RootNotCA | IntermediateNotCA
    | OutlivesRoot
    | RootOutsideWindow(when: Window) | IntermediateOutsideWindow(when: Window)
    | BrokenChain
    | OutsideRoot(host: string) | OutsideIntermediate(host: string)

  /** What parsing the three PEM inputs gave. */
  datatype Material = Material(root: Option<Certificate>, intermediate: Option<Certificate>, key: Option<nat>)

  datatype Options = Options(hosts: seq<string>, cacheSize: int, leafValidity: Duration)

  const DEFAULT_LEAF: Duration := 7 * 24 * 3600 * SECOND
  const DEFAULT_CACHE := 256

  /** The checks on parsed certificates before the host list is looked at. */
  function Reject(root: Certificate, intermediate: Certificate, key: nat, now: Time): Option<LoadError> {
    if key != intermediate.key then Some(KeyMismatch)
    else if !ValidCA(root) then Some(RootNotCA)
    else if !ValidCA(intermediate) then Some(IntermediateNotCA)
    else if intermediate.notAfter > root.notAfter then Some(OutlivesRoot)
    else if ValidAt(root, now) != Inside then Some(RootOutsideWindow(ValidAt(root, now)))
    else if ValidAt(intermediate, now) != Inside then Some(IntermediateOutsideWindow(ValidAt(intermediate, now)))
    else if !Chains(intermediate, root, now) then Some(BrokenChain)
    else None
  }

  function Refusal(root: Certificate, intermediate: Certificate, host: string): Option<LoadError> {
    if !PatternAllowed(root, host) then Some(OutsideRoot(host))
    else if !PatternAllowed(intermediate, host) then Some(OutsideIntermediate(host))
    else None
  }

  /** The refusal of the first host that has one. */
  function FirstRefusal(root: Certificate, intermediate: Certificate, hosts: seq<string>): Option<LoadError> {
    if hosts == [] then None
    else if FirstRefusal(root, intermediate, hosts[..|hosts|-1]).Some? then
      FirstRefusal(root, intermediate, hosts[..|hosts|-1])
    else Refusal(root, intermediate, hosts[|hosts|-1])
  }

  function Suffixes(names: seq<string>): seq<string> {
    if names == [] then []
    else
      var front, last := Suffixes(names[..|names|-1]), names[|names|-1];
      if HasPrefix(last, "*.") then front + [last[2..]] else front
  }

  function ExactHosts(names: seq<string>): set<string> {
    set h | h in names && !HasPrefix(h, "*.")
  }

  function NewSettings(root: Certificate, intermediate: Certificate, names: seq<string>, o: Options): Issuing.Settings {
    Issuing.Settings(
      root, intermediate, ExactHosts(names), Suffixes(names),
      if o.leafValidity <= 0 then DEFAULT_LEAF else o.leafValidity,
      if o.cacheSize <= 0 then DEFAULT_CACHE else o.cacheSize)
  }

  function LoadSpec(m: Material, o: Options, now: Time): Result<Issuing.Settings, LoadError> {
    match NormalizePatterns(o.hosts)
    case Err(e) => Err(BadHosts(e))
    case Ok(names) =>
      if m.root == None then Err(BadRoot)
      else if m.intermediate == None then Err(BadIntermediate)
      else if m.key == None then Err(BadKey)
      else Accept(m.root.value, m.intermediate.value, m.key.value, names, o, now)
  }

  /** Load once its inputs are parsed. */
  function Accept(root: Certificate, intermediate: Certificate, key: nat, names: seq<string>, o: Options, now: Time)
    : Result<Issuing.Settings, LoadError>
  {
    match Reject(root, intermediate, key, now)
    case Some(e) => Err(e)
    case None =>
      match FirstRefusal(root, intermediate, names)
      case Some(e) => Err(e)
      case None => Ok(NewSettings(root, intermediate, names, o))
  }

  method CheckHosts(root: Certificate, intermediate: Certificate, names: seq<string>) returns (e: Option<LoadError>)
    ensures e == FirstRefusal(root, intermediate, names)
  {
    for i := 0 to |names|
      invariant FirstRefusal(root, intermediate, names[..i]) == None
    {
      assert names[..i+1][..i] == names[..i];
      if !PatternAllowed(root, names[i]) {
        RefusalStands(root, intermediate, names, i + 1);
        return Some(OutsideRoot(names[i]));
      }
      if !PatternAllowed(intermediate, names[i]) {
        RefusalStands(root, intermediate, names, i + 1);
        return Some(OutsideIntermediate(names[i]));
      }
    }
    assert names[..|names|] == names;
    return None;
  }

  lemma {:induction false} RefusalStands(root: Certificate, intermediate: Certificate, hosts: seq<string>, k: nat)
    requires k <= |hosts| && FirstRefusal(root, intermediate, hosts[..k]).Some?
    ensures FirstRefusal(root, intermediate, hosts) == FirstRefusal(root, intermediate, hosts[..k])
  {
    if k == |hosts| {
      assert hosts[..k] == hosts;
    } else {
      var front := hosts[..|hosts|-1];
      assert front[..k] == hosts[..k];
      RefusalStands(root, intermediate, front, k);
    }
  }

  /** The loop that sorts the patterns into exact hosts and suffixes. */
  method SplitPatterns(names: seq<string>) returns (hosts: set<string>, suffixes: seq<string>)
    ensures hosts == ExactHosts(names) && suffixes == Suffixes(names)
  {
    hosts, suffixes := {}, [];
    for i := 0 to |names|
      invariant hosts == ExactHosts(names[..i])
      invariant suffixes == Suffixes(names[..i])
    {
      assert names[..i+1] == names[..i] + [names[i]];
      assert names[..i+1][..i] == names[..i];
      if HasPrefix(names[i], "*.") {
        suffixes := suffixes + [names[i][2..]];
        continue;
      }
      hosts := hosts + {names[i]};
    }
    assert names[..|names|] == names;
  }

  method Load(m: Material, o: Options, now: Time) returns (r: Result<Issuer, LoadError>)
    ensures r.Err? ==> LoadSpec(m, o, now) == Err(r.error)
    ensures r.Ok? ==> r.value.Valid() && fresh(r.value) && r.value.history == []
    ensures r.Ok? ==> LoadSpec(m, o, now) == Ok(r.value.Config())
  {
    var normalized := NormalizeList(NormalizePattern, o.hosts);
    if normalized.Err? {
      return Err(BadHosts(normalized.error));
    }
    var names := normalized.value;
    if m.root == None {
      return Err(BadRoot);
    }
    if m.intermediate == None {
      return Err(BadIntermediate);
    }
    if m.key == None {
      return Err(BadKey);
    }
    r := LoadParsed(m.root.value, m.intermediate.value, m.key.value, names, o, now);
  }

  /** The part of Load behind the parsing. */
  method LoadParsed(root: Certificate, intermediate: Certificate, key: nat, names: seq<string>, o: Options, now: Time)
    returns (r: Result<Issuer, LoadError>)
    ensures r.Err? ==> Accept(root, intermediate, key, names, o, now) == Err(r.error)
    ensures r.Ok? ==> r.value.Valid() && fresh(r.value) && r.value.history == []
    ensures r.Ok? ==> Accept(root, intermediate, key, names, o, now) == Ok(r.value.Config())
  {
    var rejected := Reject(root, intermediate, key, now);
    if rejected.Some? {
      return Err(rejected.value);
    }
    var refused := CheckHosts(root, intermediate, names);
    if refused.Some? {
      return Err(refused.value);
    }
    var cacheSize := o.cacheSize;
    if cacheSize <= 0 {
      cacheSize := DEFAULT_CACHE;
    }
    var leafValidity := o.leafValidity;
    if leafValidity <= 0 {
      leafValidity := DEFAULT_LEAF;
    }
    var hosts, suffixes := SplitPatterns(names);
    var issuer := new Issuer(Issuing.Settings(root, intermediate, hosts, suffixes, leafValidity, cacheSize));
    return Ok(issuer);
  }

  // ---------------------------------------------------------------- what the host list means afterwards

  /** A normalised pattern list, read as the set of names it stands for. */
  predicate Covers(names: seq<string>, host: string) {
    exists p :: p in names && Profiles.PatternCovers(p, host)
  }

  lemma {:induction false} SuffixesAre(names: seq<string>)
    ensures forall x :: x in Suffixes(names) <==> "*." + x in names
  {
    if names != [] {
      var front, last := names[..|names|-1], names[|names|-1];
      SuffixesAre(front);
      assert names == front + [last];
      forall x ensures x in Suffixes(names) <==> "*." + x in names {
        assert ("*." + x)[2..] == x;
        assert HasPrefix(last, "*.") ==> last == "*." + last[2..];
      }
    }
  }

  /** The exact-set and suffix-list form answers for an exact name as the pattern list does. */
  lemma NamedIsCovered(s: Issuing.Settings, names: seq<string>, host: string)
    requires s.hosts == ExactHosts(names) && s.suffixes == Suffixes(names)
    requires !HasPrefix(host, "*.")
    ensures Issuing.Named(s, host) <==> Covers(names, host)
  {
    SuffixesAre(names);
    if Covers(names, host) {
      var p :| p in names && Profiles.PatternCovers(p, host);
      if p != host {
        assert p == "*." + p[2..];
        assert p[2..] in s.suffixes;
      }
    }
    if Issuing.Named(s, host) && host !in s.hosts {
      var x :| x in s.suffixes && HasSuffix(host, "." + x);
      assert "*." + x in names && ("*." + x)[2..] == x;
    }
  }

  lemma {:induction false} NoRefusal(root: Certificate, intermediate: Certificate, names: seq<string>)
    ensures FirstRefusal(root, intermediate, names) == None
            <==> forall p :: p in names ==> Permitted(root, intermediate, p)
  {
    if names != [] {
      var front, last := names[..|names|-1], names[|names|-1];
      NoRefusal(root, intermediate, front);
      assert Refusal(root, intermediate, last) == None <==> Permitted(root, intermediate, last);
      assert forall p :: p in names <==> p in front || p == last;
    }
  }

  /**
   What an issuer that loads is: a CA whose key is at hand, signed by a root CA it does not outlive,
   both valid now, with every configured pattern inside both certificates' constraints.
   */
  lemma LoadAcceptsExactly(root: Certificate, intermediate: Certificate, key: nat, o: Options, now: Time)
    ensures LoadSpec(Material(Some(root), Some(intermediate), Some(key)), o, now).Ok?
            <==> && key == intermediate.key && intermediate.signer == root.key
                 && root.isCA && root.basicConstraints && root.certSign
                 && intermediate.isCA && intermediate.basicConstraints && intermediate.certSign
                 && root.notBefore <= now < root.notAfter
                 && intermediate.notBefore <= now < intermediate.notAfter <= root.notAfter
                 && NormalizePatterns(o.hosts).Ok?
                 && forall p :: p in NormalizePatterns(o.hosts).value ==>
                      PatternAllowed(root, p) && PatternAllowed(intermediate, p)
  {
    if NormalizePatterns(o.hosts).Ok? {
      var names := NormalizePatterns(o.hosts).value;
      LoadSucceeds(root, intermediate, key, names, o, now);
      NoRefusal(root, intermediate, names);
      RejectsNone(root, intermediate, key, now);
    }
  }

  /** What Load looks at first: the host list, then the root, the intermediate and the key, each if it parses. */
  lemma LoadReadsInOrder(m: Material, o: Options, now: Time)
    ensures match NormalizePatterns(o.hosts)
            case Err(e) => LoadSpec(m, o, now) == Err(BadHosts(e))
            case Ok(_) =>
              && (LoadSpec(m, o, now) == Err(BadRoot) <==> m.root == None)
              && (LoadSpec(m, o, now) == Err(BadIntermediate) <==> m.root.Some? && m.intermediate == None)
              && (LoadSpec(m, o, now) == Err(BadKey) <==> m.root.Some? && m.intermediate.Some? && m.key == None)
  {
    if NormalizePatterns(o.hosts).Ok? && m.root.Some? && m.intermediate.Some? && m.key.Some? {
      AcceptMisreadsNothing(
        m.root.value, m.intermediate.value, m.key.value, NormalizePatterns(o.hosts).value, o, now);
    }
  }

  lemma AcceptMisreadsNothing(
      root: Certificate, intermediate: Certificate, key: nat, names: seq<string>, o: Options, now: Time)
    ensures var r := Accept(root, intermediate, key, names, o, now);
            r.Err? ==> r.error != BadRoot && r.error != BadIntermediate && r.error != BadKey
  {
    var k := RefusesBecause(root, intermediate, names);
  }

  /** The checks on the certificates in their order: each error means that its check is the first to fail. */
  lemma RejectsBecause(root: Certificate, intermediate: Certificate, key: nat, now: Time)
    ensures var e := Reject(root, intermediate, key, now);
            var keyFits, outlives := key == intermediate.key, intermediate.notAfter > root.notAfter;
            var rootCA := root.isCA && root.basicConstraints && root.certSign;
            var bothCA := rootCA && intermediate.isCA && intermediate.basicConstraints && intermediate.certSign;
            var rootInside := root.notBefore <= now < root.notAfter;
            && (e == Some(KeyMismatch) <==> !keyFits)
            && (e == Some(RootNotCA) <==> keyFits && !rootCA)
            && (e == Some(IntermediateNotCA) <==> keyFits && rootCA && !bothCA)
            && (e == Some(OutlivesRoot) <==> keyFits && bothCA && outlives)
            && (e == Some(RootOutsideWindow(NotYetValid)) <==> keyFits && bothCA && !outlives && now < root.notBefore)
            && (e == Some(RootOutsideWindow(Expired))
                <==> keyFits && bothCA && !outlives && root.notBefore <= now && root.notAfter <= now)
            && (e == Some(IntermediateOutsideWindow(NotYetValid))
                <==> keyFits && bothCA && !outlives && rootInside && now < intermediate.notBefore)
            && (e == Some(IntermediateOutsideWindow(Expired))
                <==> keyFits && bothCA && !outlives && rootInside
                     && intermediate.notBefore <= now && intermediate.notAfter <= now)
            && (e == Some(BrokenChain)
                <==> keyFits && bothCA && !outlives && rootInside
                     && intermediate.notBefore <= now < intermediate.notAfter && intermediate.signer != root.key)
  {
  }

  /** The host loop names the first pattern that one of the certificates does not allow, and blames the root first. */
  lemma {:induction false} RefusesBecause(root: Certificate, intermediate: Certificate, names: seq<string>)
    returns (k: nat)
    ensures k <= |names| && forall i :: 0 <= i < k ==> Permitted(root, intermediate, names[i])
    ensures k == |names| ==> FirstRefusal(root, intermediate, names) == None
    ensures k < |names| ==>
              && !Permitted(root, intermediate, names[k])
              && FirstRefusal(root, intermediate, names)
                 == Some(if PatternAllowed(root, names[k]) then OutsideIntermediate(names[k])
                         else OutsideRoot(names[k]))
  {
    k := 0;
    if names != [] {
      var front, last := names[..|names|-1], names[|names|-1];
      k := RefusesBecause(root, intermediate, front);
      assert forall i :: 0 <= i < |front| ==> front[i] == names[i];
      if k == |front| && Permitted(root, intermediate, last) {
        k := |names|;
      }
    }
  }

  /** What an issuer is loaded with: the options, or 256 cached leaves and seven days where they are not positive. */
  lemma SettingsMeans(root: Certificate, intermediate: Certificate, names: seq<string>, o: Options)
    ensures var s := NewSettings(root, intermediate, names, o);
            && s.root == root && s.intermediate == intermediate
            && (forall h :: h in s.hosts <==> h in names && !("*." <= h))
            && (forall x :: x in s.suffixes <==> "*." + x in names)
            && (o.cacheSize > 0 ==> s.cacheSize == o.cacheSize)
            && (o.cacheSize <= 0 ==> s.cacheSize == 256)
            && (o.leafValidity > 0 ==> s.leafValidity == o.leafValidity)
            && (o.leafValidity <= 0 ==> s.leafValidity == 604_800 * 1_000_000_000)
  {
    SuffixesAre(names);
  }

  lemma RejectsNone(root: Certificate, intermediate: Certificate, key: nat, now: Time)
    ensures Reject(root, intermediate, key, now) == None
            <==> && key == intermediate.key && intermediate.signer == root.key
                 && ValidCA(root) && ValidCA(intermediate)
                 && root.notBefore <= now < root.notAfter
                 && intermediate.notBefore <= now < intermediate.notAfter <= root.notAfter
  {
  }

  /**
   Whatever non-empty list FilterHosts keeps, Load reads back unchanged and its host loop accepts
   against the same certificates: Load then answers as it does on the certificates alone.
   */
  lemma LoadAcceptsKept(
      root: Certificate, intermediate: Certificate, key: Option<nat>, hosts: seq<string>, o: Options, now: Time)
    requires FilterHostsSpec(root, intermediate, hosts).Ok?
    requires var kept := FilterHostsSpec(root, intermediate, hosts).value.kept; kept != [] && o.hosts == kept
    ensures LoadSpec(Material(Some(root), Some(intermediate), key), o, now)
            == if key == None then Err(BadKey)
               else if Reject(root, intermediate, key.value, now).Some? then
                 Err(Reject(root, intermediate, key.value, now).value)
               else Ok(NewSettings(root, intermediate, o.hosts, o))
  {
    KeptIsNormal(root, intermediate, hosts);
    NoRefusal(root, intermediate, o.hosts);
  }

  // ---------------------------------------------------------------- Init

  const DEFAULT_ROOT: Duration := 10 * 365 * 24 * 3600 * SECOND
  const DEFAULT_INTERMEDIATE: Duration := 3 * 365 * 24 * 3600 * SECOND

  /** The two key pairs Init draws, or a failure to draw, sign or encode. */
  datatype Ceremony = Fails | Draws(rootKey: nat, intermediateKey: nat)

  datatype Authority = Authority(root: Certificate, intermediate: Certificate, intermediateKey: nat)

  datatype InitError = BadInitHosts(cause: HostError) | CeremonyFailed

  /** The certificates Init makes for normalised hosts, as they are read back from their encoding. */
  function NewAuthority(
      names: seq<string>, now: Time, rootValidity: Duration, intermediateValidity: Duration,
      rootKey: nat, intermediateKey: nat): Authority
  {
    var rootLife := if rootValidity <= 0 then DEFAULT_ROOT else rootValidity;
    var intermediateLife := if intermediateValidity <= 0 then DEFAULT_INTERMEDIATE else intermediateValidity;
    var root :=
      Certificate(rootKey, rootKey, true, true, true, WholeSecond(now), WholeSecond(now + rootLife), names, []);
    var end := if now + intermediateLife > root.notAfter then root.notAfter else now + intermediateLife;
    Authority(
      root,
      Certificate(intermediateKey, rootKey, true, true, true, WholeSecond(now), WholeSecond(end), names, []),
      intermediateKey)
  }

  function InitSpec(
      hosts: seq<string>, now: Time, rootValidity: Duration, intermediateValidity: Duration, c: Ceremony)
    : Result<Authority, InitError>
  {
    match NormalizeHosts(hosts)
    case Err(e) => Err(BadInitHosts(e))
    case Ok(names) =>
      match c
      case Fails => Err(CeremonyFailed)
      case Draws(rk, ik) => Ok(NewAuthority(names, now, rootValidity, intermediateValidity, rk, ik))
  }

  /** The pattern is the initial host or lies below it. */
  predicate Under(pattern: string, host: string) {
    pattern == host || HasSuffix(pattern, "." + host)
  }

  /** The pattern's probe name happens to be the initial host itself. */
  predicate ProbeOf(pattern: string, host: string) {
    HasPrefix(pattern, "*.") && "subdomain." + pattern[2..] == host
  }

  predicate WithinInitial(names: seq<string>, initial: seq<string>) {
    forall p :: p in names ==> exists h :: h in initial && (Under(p, h) || ProbeOf(p, h))
  }

  /** An exact name as a constraint permits itself and everything below it. */
  lemma ExactConstraint(domain: string, host: string)
    requires Exact(domain)
    ensures DomainMatches(domain, host) <==> Under(host, domain)
  {
    ExactIsPlain(domain);
    assert Split(domain, '.')[0] in Split(domain, '.');
    assert domain[0] != '.';
  }

  lemma InitPermits(cert: Certificate, pattern: string)
    requires cert.permitted != [] && cert.excluded == []
    requires forall d :: d in cert.permitted ==> Exact(d)
    requires Pattern(pattern)
    ensures PatternAllowed(cert, pattern)
            <==> exists d :: d in cert.permitted && (Under(pattern, d) || ProbeOf(pattern, d))
  {
    forall d | d in cert.permitted
      ensures DomainMatches(d, if HasPrefix(pattern, "*.") then "subdomain." + pattern[2..] else pattern)
              <==> Under(pattern, d) || ProbeOf(pattern, d)
    {
      ExactConstraint(d, if HasPrefix(pattern, "*.") then "subdomain." + pattern[2..] else pattern);
      if HasPrefix(pattern, "*.") {
        WildcardUnder(pattern[2..], d);
        assert pattern == "*." + pattern[2..];
      }
    }
  }

  /** A suffix that starts at a label boundary lies within the part behind a dotless first label. */
  lemma SuffixPastLabel(first: string, base: string, host: string)
    requires '.' !in first
    ensures HasSuffix(first + "." + base, "." + host) <==> base == host || HasSuffix(base, "." + host)
  {
    var whole, tail := first + "." + base, "." + host;
    assert whole == first + ("." + base);
    if |host| <= |base| {
      SuffixTail(first, "." + base, tail);
      if |host| < |base| {
        SuffixTail(".", base, tail);
      } else {
        assert ("." + base)[0..] == "." + base;
        assert ("." + base)[1..] == base && tail[1..] == host;
      }
    } else if |tail| <= |whole| {
      var k := |whole| - |tail|;
      assert whole[k..][0] == whole[k] == first[k];
    }
  }

  lemma WildcardUnder(base: string, host: string)
    requires Exact(host)
    ensures Under("*." + base, host) <==> HasSuffix("subdomain." + base, "." + host)
  {
    SuffixPastLabel("*", base, host);
    SuffixPastLabel("subdomain", base, host);
    assert "*" + "." + base == "*." + base;
    assert "subdomain" + "." + base == "subdomain." + base;
    ExactChars(host);
    assert ("*." + base)[0] == '*';
    assert host[0] in host;
  }

  /** Init's certificates are CAs, chain to each other, and the intermediate never outlives the root. */
  lemma InitWindow(names: seq<string>, now: Time, rv: Duration, iv: Duration, rk: nat, ik: nat)
    ensures var a := NewAuthority(names, now, rv, iv, rk, ik);
            && a.intermediate.notAfter <= a.root.notAfter
            && Parsed(a.root) && Parsed(a.intermediate)
            && a.root.notBefore == a.intermediate.notBefore == WholeSecond(now) <= now
            && (&& SECOND <= (if rv <= 0 then DEFAULT_ROOT else rv)
                && SECOND <= (if iv <= 0 then DEFAULT_INTERMEDIATE else iv)
                ==> now < a.intermediate.notAfter)
  {
  }

  /**
   What Init's certificates hold: the keys drawn, the root's signature on both, the hosts as permitted
   names, and as ends the last whole seconds within their validity, ten and three years by default, of
   which the intermediate's is also within the root's.
   */
  lemma AuthorityMeans(names: seq<string>, now: Time, rv: Duration, iv: Duration, rk: nat, ik: nat)
    ensures var a := NewAuthority(names, now, rv, iv, rk, ik);
            && a.root.key == rk && a.root.signer == rk
            && a.intermediate.key == ik && a.intermediate.signer == rk && a.intermediateKey == ik
            && a.root.permitted == names && a.root.excluded == []
            && a.intermediate.permitted == names && a.intermediate.excluded == []
            && EndsWithin(a.root.notAfter, now + if rv <= 0 then 315_360_000 * 1_000_000_000 else rv)
            && EndsWithin(
                 a.intermediate.notAfter,
                 Min(a.root.notAfter, now + if iv <= 0 then 94_608_000 * 1_000_000_000 else iv))
  {
  }

  /** The last whole second up to a limit. */
  predicate EndsWithin(end: Time, limit: Time) {
    end % 1_000_000_000 == 0 && end <= limit < end + 1_000_000_000
  }

  /** Init makes certificates exactly when its host list is accepted and no draw fails, with that list's names. */
  lemma InitSucceedsExactly(hosts: seq<string>, now: Time, rv: Duration, iv: Duration, c: Ceremony)
    ensures InitSpec(hosts, now, rv, iv, c).Ok?
            <==> && hosts != [] && (forall i :: 0 <= i < |hosts| ==> NormalizeHost(hosts[i]).Ok?) && c.Draws?
    ensures InitSpec(hosts, now, rv, iv, c).Ok? ==>
              forall h :: h in InitSpec(hosts, now, rv, iv, c).value.root.permitted
                          <==> exists i :: 0 <= i < |hosts| && NormalizeHost(hosts[i]) == Ok(h)
  {
    var at := NormalizedListExactly(NormalizeHost, hosts);
    if NormalizeHosts(hosts).Ok? {
      var names := NormalizeHosts(hosts).value;
      forall h | h in names ensures exists i :: 0 <= i < |hosts| && NormalizeHost(hosts[i]) == Ok(h) {
        var j :| 0 <= j < |names| && names[j] == h;
        assert NormalizeHost(hosts[at[j]]) == Ok(h);
      }
    }
  }

  lemma InitReject(names: seq<string>, now: Time, rv: Duration, iv: Duration, rk: nat, ik: nat, later: Time)
    ensures var a := NewAuthority(names, now, rv, iv, rk, ik);
            && a.root.permitted == a.intermediate.permitted == names
            && a.root.excluded == a.intermediate.excluded == []
            && (Reject(a.root, a.intermediate, a.intermediateKey, later) == None
                <==> WholeSecond(now) <= later < a.intermediate.notAfter)
  {
  }

  /**
   What Init produces, Load accepts: at every instant of the intermediate's validity, and at no
   other, and for exactly the pattern lists whose entries lie at or below an initial host. The one
   stray exception is a "*." pattern whose probe name is itself an initial host.
   */
  lemma InitThenLoad(
      hosts: seq<string>, now: Time, rv: Duration, iv: Duration, c: Ceremony, o: Options, later: Time)
    requires InitSpec(hosts, now, rv, iv, c).Ok?
    ensures var a, initial := InitSpec(hosts, now, rv, iv, c).value, NormalizeHosts(hosts).value;
            LoadSpec(Material(Some(a.root), Some(a.intermediate), Some(a.intermediateKey)), o, later).Ok?
            <==> && WholeSecond(now) <= later < a.intermediate.notAfter
                 && NormalizePatterns(o.hosts).Ok?
                 && WithinInitial(NormalizePatterns(o.hosts).value, initial)
  {
    var a, initial := InitSpec(hosts, now, rv, iv, c).value, NormalizeHosts(hosts).value;
    NormalizedHosts(hosts);
    assert a == NewAuthority(initial, now, rv, iv, c.rootKey, c.intermediateKey);
    InitReject(initial, now, rv, iv, c.rootKey, c.intermediateKey, later);
    if NormalizePatterns(o.hosts).Ok? {
      LoadSucceeds(a.root, a.intermediate, a.intermediateKey, NormalizePatterns(o.hosts).value, o, later);
      NormalizedPatterns(o.hosts);
      InitAccepts(a, initial, NormalizePatterns(o.hosts).value);
    }
  }

  lemma LoadSucceeds(
      root: Certificate, intermediate: Certificate, key: nat, names: seq<string>, o: Options, now: Time)
    requires NormalizePatterns(o.hosts) == Ok(names)
    ensures LoadSpec(Material(Some(root), Some(intermediate), Some(key)), o, now).Ok?
            <==> Reject(root, intermediate, key, now) == None && FirstRefusal(root, intermediate, names) == None
  {
    assert LoadSpec(Material(Some(root), Some(intermediate), Some(key)), o, now)
           == Accept(root, intermediate, key, names, o, now);
  }

  lemma InitAccepts(a: Authority, initial: seq<string>, names: seq<string>)
    requires a.root.permitted == a.intermediate.permitted == initial && a.root.excluded == a.intermediate.excluded == []
    requires initial != [] && forall h :: h in initial ==> Exact(h)
    requires forall p :: p in names ==> Pattern(p)
    ensures FirstRefusal(a.root, a.intermediate, names) == None <==> WithinInitial(names, initial)
  {
    NoRefusal(a.root, a.intermediate, names);
    forall p | p in names
      ensures Permitted(a.root, a.intermediate, p) <==> exists h :: h in initial && (Under(p, h) || ProbeOf(p, h))
    {
      InitPermits(a.root, p);
      InitPermits(a.intermediate, p);
    }
  }

  lemma NormalizedHosts(hosts: seq<string>)
    requires NormalizeHosts(hosts).Ok?
    ensures var names := NormalizeHosts(hosts).value; names != [] && forall h :: h in names ==> Exact(h)
  {
    var each := TryEach(NormalizeHost, hosts).value;
    TryEachElement(NormalizeHost, hosts);
    assert each[0] in NormalizeHosts(hosts).value;
  }
}
