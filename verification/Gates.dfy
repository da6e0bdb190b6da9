/** The host gate in front of TLS handshakes and HTTP requests (internal/sink/sink.go). */
module Gates {
  import opened Results
  import opened GoStrings
  import opened Certificates
  import opened NameConstraints
  import opened PatternLists
  import opened Loading
  import PkiHosts
  import Profiles
  import Issuing

  /** The normal forms of the hosts that have one. */
  function HostSet(hosts: seq<string>): set<string> {
    set h | h in hosts && Profiles.NormalizeHost(h).Ok? :: Profiles.NormalizeHost(h).value
  }

  method BuildHostSet(hosts: seq<string>) returns (r: set<string>)
    ensures r == HostSet(hosts)
  {
    r := {};
    for i := 0 to |hosts|
      invariant r == HostSet(hosts[..i])
    {
      assert hosts[..i+1] == hosts[..i] + [hosts[i]];
      var normalized := Profiles.NormalizeHost(hosts[i]);
      if normalized.Ok? {
        r := r + {normalized.value};
      }
    }
    assert hosts[..|hosts|] == hosts;
  }

  predicate AllowedHost(hosts: set<string>, host: string) {
    || host in hosts
    || exists p :: p in hosts && HasPrefix(p, "*.") && HasSuffix(host, "." + TrimPrefix(p, "*."))
  }

  /** The SNI has a normal form and the gate lets it through. */
  predicate GatePasses(gate: set<string>, sni: string) {
    Profiles.NormalizeHost(sni).Ok? && AllowedHost(gate, Profiles.NormalizeHost(sni).value)
  }

  /** A normal pattern is also in the profile package's normal form. */
  lemma PatternIsFixed(p: string)
    requires PkiHosts.Pattern(p)
    ensures Profiles.Plain(p) && Profiles.NormalizeHost(p) == Ok(p)
  {
    assert ToLower(p) == p by { PkiHosts.PatternIsPlain(p); }
    PkiHosts.PatternChars(p);
    assert Profiles.Plain(p);
    Profiles.PlainIsFixed(p);
  }

  /** On normal patterns the gate set is the list itself, and the gate test is pattern coverage. */
  lemma GateIsCoverage(names: seq<string>, host: string)
    requires forall p :: p in names ==> PkiHosts.Pattern(p)
    ensures forall p :: p in HostSet(names) <==> p in names
    ensures AllowedHost(HostSet(names), host) <==> Covers(names, host)
  {
    forall p | p in names ensures Profiles.NormalizeHost(p) == Ok(p) {
      PatternIsFixed(p);
    }
    var gate := HostSet(names);
    assert forall p :: p in gate <==> p in names;
    forall p | p in names && HasPrefix(p, "*.") ensures TrimPrefix(p, "*.") == p[2..] {
    }
    if AllowedHost(gate, host) && host !in gate {
      var p :| p in gate && HasPrefix(p, "*.") && HasSuffix(host, "." + TrimPrefix(p, "*."));
      assert Profiles.PatternCovers(p, host);
    }
    if Covers(names, host) {
      var p :| p in names && Profiles.PatternCovers(p, host);
      assert p in gate;
    }
  }

  /** The gate lets a host through exactly when a pattern of the gate covers it; the gate holds the normal forms. */
  lemma GateMeans(hosts: seq<string>, host: string)
    ensures AllowedHost(HostSet(hosts), host) <==> exists p :: p in HostSet(hosts) && Profiles.PatternCovers(p, host)
    ensures forall p :: p in HostSet(hosts)
                        <==> exists i :: 0 <= i < |hosts| && Profiles.NormalizeHost(hosts[i]) == Ok(p)
  {
    forall p | HasPrefix(p, "*.") ensures TrimPrefix(p, "*.") == p[2..] {
    }
    forall p | p in HostSet(hosts) ensures exists i :: 0 <= i < |hosts| && Profiles.NormalizeHost(hosts[i]) == Ok(p) {
      var h :| h in hosts && Profiles.NormalizeHost(h) == Ok(p);
      var i :| 0 <= i < |hosts| && hosts[i] == h;
    }
  }

  /** The two normalisers agree on every name the issuer accepts. */
  lemma NormalizersAgree(sni: string)
    requires PkiHosts.NormalizeHost(sni).Ok?
    ensures Profiles.NormalizeHost(sni) == Ok(PkiHosts.NormalizeHost(sni).value)
  {
    var h := PkiHosts.NormalizeHost(sni).value;
    Profiles.LowerIsPlain(TrimSpace(sni));
    PkiHosts.ExactChars(h);
  }

  /**
   The TLS gate and the issuer's own list test agree on every SNI the issuer can normalise, so what
   the issuer allows is what the gate and both certificates' constraints allow.
   */
  lemma GatesAgree(s: Issuing.Settings, names: seq<string>, sni: string)
    requires forall p :: p in names ==> PkiHosts.Pattern(p)
    requires s.hosts == ExactHosts(names) && s.suffixes == Suffixes(names)
    requires PkiHosts.NormalizeHost(sni).Ok?
    ensures var host := PkiHosts.NormalizeHost(sni).value;
            && Profiles.NormalizeHost(sni) == Ok(host)
            && (Issuing.Named(s, host) <==> AllowedHost(HostSet(names), host))
            && (Issuing.Allows(s, host) <==>
                  AllowedHost(HostSet(names), host) && HostAllowed(s.root, host) && HostAllowed(s.intermediate, host))
  {
    var host := PkiHosts.NormalizeHost(sni).value;
    NormalizersAgree(sni);
    PkiHosts.ExactIsPlain(host);
    NamedIsCovered(s, names, host);
    GateIsCoverage(names, host);
  }

  /** No constraint entry of either certificate lies strictly below a "*." pattern of the list. */
  predicate NothingBelowPatterns(root: Certificate, intermediate: Certificate, names: seq<string>) {
    forall p :: p in names && HasPrefix(p, "*.") ==> NothingBelow(root, p[2..]) && NothingBelow(intermediate, p[2..])
  }

  /**
   When moreover no constraint entry lies strictly below a pattern, the certificates add nothing:
   the list Load accepted allows exactly what the gate allows.
   */
  lemma GateAloneDecides(s: Issuing.Settings, names: seq<string>, host: string)
    requires forall p :: p in names ==> PkiHosts.Pattern(p) && Permitted(s.root, s.intermediate, p)
    requires s.hosts == ExactHosts(names) && s.suffixes == Suffixes(names)
    requires NothingBelowPatterns(s.root, s.intermediate, names)
    requires PkiHosts.Exact(host)
    ensures Issuing.Allows(s, host) <==> AllowedHost(HostSet(names), host)
  {
    PkiHosts.ExactIsPlain(host);
    NamedIsCovered(s, names, host);
    GateIsCoverage(names, host);
    if Covers(names, host) {
      var p :| p in names && Profiles.PatternCovers(p, host);
      CoveredPasses(s.root, s.intermediate, names, p, host);
    }
  }

  lemma CoveredPasses(root: Certificate, intermediate: Certificate, names: seq<string>, p: string, host: string)
    requires p in names && Permitted(root, intermediate, p) && NothingBelowPatterns(root, intermediate, names)
    requires PkiHosts.Exact(host) && !HasPrefix(host, "*.") && Profiles.PatternCovers(p, host)
    ensures HostAllowed(root, host) && HostAllowed(intermediate, host)
  {
    if p != host {
      assert p == "*." + p[2..];
      CoveredIsAllowed(root, p[2..], host);
      CoveredIsAllowed(intermediate, p[2..], host);
    }
  }

  lemma CoveredIsAllowed(cert: Certificate, base: string, host: string)
    requires HasSuffix(host, "." + base) && PkiHosts.Exact(host)
    requires NothingBelow(cert, base)
    requires PatternAllowed(cert, "*." + base)
    ensures HostAllowed(cert, host)
  {
    ProbeSuffices(cert, base);
    var prefix := host[..|host| - |base| - 1];
    assert host == Below(prefix, base);
    assert prefix != "" by {
      ExactHead(host);
      assert host[|host| - |base| - 1..][0] == '.';
    }
  }

  lemma ExactHead(host: string)
    requires PkiHosts.Exact(host)
    ensures host[0] != '.'
  {
    assert Split(host, '.')[0] in Split(host, '.');
  }
}
