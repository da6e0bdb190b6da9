/** DNS name constraints (section 4.2.1.10 of RFC 5280) as internal/pki/pki.go applies them. */
module NameConstraints {
  import opened GoStrings
  import opened Certificates

  predicate DomainMatches(domain: string, host: string) {
    var d := ToLower(TrimSuffix(domain, "."));
    if HasPrefix(d, ".") then
      HasSuffix(host, d) && host != TrimPrefix(d, ".")
    else
      host == d || HasSuffix(host, "." + d)
  }

  predicate HostAllowed(cert: Certificate, host: string) {
    && (|cert.permitted| > 0 ==> exists d :: d in cert.permitted && DomainMatches(d, host))
    && forall d :: d in cert.excluded ==> !DomainMatches(d, host)
  }

  predicate PatternAllowed(cert: Certificate, pattern: string) {
    if HasPrefix(pattern, "*.") then
      HostAllowed(cert, "subdomain." + pattern[2..])
    else
      HostAllowed(cert, pattern)
  }

  /** The name `prefix` labels below `base`. */
  function Below(prefix: string, base: string): string {
    prefix + "." + base
  }

  /** A constraint entry without its trailing and leading dot. */
  function Anchor(domain: string): string {
    TrimPrefix(ToLower(TrimSuffix(domain, ".")), ".")
  }

  /** The entry names `base` or a parent of it, so it treats all names below `base` alike. */
  predicate AtOrAbove(domain: string, base: string) {
    HasSuffix("." + base, "." + Anchor(domain))
  }

  /** The entry names something strictly below `base`, so it tells names below `base` apart. */
  predicate StrictlyBelow(domain: string, base: string) {
    HasSuffix(Anchor(domain), "." + base)
  }

  /** No entry of the certificate lies strictly below `base`. */
  predicate NothingBelow(cert: Certificate, base: string) {
    && (forall d :: d in cert.permitted ==> !StrictlyBelow(d, base))
    && forall d :: d in cert.excluded ==> !StrictlyBelow(d, base)
  }

  /** What the entries must be like for a probe that is allowed to speak for every name below `base`. */
  predicate ProbeDecides(cert: Certificate, base: string) {
    && (forall d :: d in cert.excluded ==> !StrictlyBelow(d, base))
    && (cert.permitted == [] || exists d :: d in cert.permitted && AtOrAbove(d, base))
  }

  /** An entry that does not lie strictly below `base` matches all names below it or none. */
  lemma UniformBelow(domain: string, prefix: string, base: string)
    requires prefix != "" && !StrictlyBelow(domain, base)
    ensures DomainMatches(domain, Below(prefix, base)) <==> AtOrAbove(domain, base)
  {
    var d, e, host := ToLower(TrimSuffix(domain, ".")), Anchor(domain), Below(prefix, base);
    assert host == prefix + ("." + base);
    assert HasPrefix(d, ".") ==> d == "." + e;
    if |e| <= |base| {
      SuffixTail(prefix, "." + base, "." + e);
    } else {
      if HasSuffix(host, "." + e) || host == e {
        TailOfLonger(host, e, "." + base);
      }
    }
  }

  lemma TailOfLonger(s: string, e: string, t: string)
    requires HasSuffix(s, e) || HasSuffix(s, "." + e)
    requires |t| <= |e| && HasSuffix(s, t)
    ensures HasSuffix(e, t)
  {
  }

  /** An entry strictly below `base` matches some name below it ... */
  lemma MatchedBelow(domain: string, base: string) returns (prefix: string)
    requires StrictlyBelow(domain, base)
    ensures prefix != "" && DomainMatches(domain, Below(prefix, base))
  {
    var d, e := ToLower(TrimSuffix(domain, ".")), Anchor(domain);
    var w := e[..|e| - |base| - 1];
    assert e == w + ("." + base) == Below(w, base);
    if HasPrefix(d, ".") {
      prefix := "x." + w;
      assert Below(prefix, base) == "x" + d;
      SuffixTail("x", d, d);
    } else {
      prefix := w;
    }
  }

  /** ... and a name with one long label escapes it. */
  lemma EscapesBelow(domain: string, prefix: string, base: string)
    requires StrictlyBelow(domain, base) && '.' !in prefix && |prefix| > |domain|
    ensures !DomainMatches(domain, Below(prefix, base))
  {
    var d, e, host := ToLower(TrimSuffix(domain, ".")), Anchor(domain), Below(prefix, base);
    assert |e| <= |domain|;
    var k := |host| - |e| - 1;
    assert host[k..][0] == host[k] == prefix[k];
    assert HasPrefix(d, ".") ==> d == "." + e;
  }

  lemma {:induction false} LongLabel(domains: seq<string>) returns (prefix: string)
    ensures prefix != "" && '.' !in prefix
    ensures forall d :: d in domains ==> |prefix| > |d|
  {
    if domains == [] {
      prefix := "x";
    } else {
      var shorter := LongLabel(domains[1..]);
      prefix := shorter + seq(|domains[0]|, _ => 'x');
      assert forall d :: d in domains ==> d == domains[0] || d in domains[1..];
    }
  }

  /**
   The CA check tests a "*." pattern with the single name "subdomain." + base. Every name below
   `base` is allowed exactly when that probe is allowed and ProbeDecides holds of the entries.
   */
  lemma ProbeForAll(cert: Certificate, base: string)
    ensures (forall prefix :: prefix != "" ==> HostAllowed(cert, Below(prefix, base)))
            <==> PatternAllowed(cert, "*." + base) && ProbeDecides(cert, base)
  {
    assert ("*." + base)[2..] == base;
    assert "subdomain." + base == Below("subdomain", base);
    if forall prefix :: prefix != "" ==> HostAllowed(cert, Below(prefix, base)) {
      assert "subdomain" != "";
      assert PatternAllowed(cert, "*." + base);
      AllBelowDecides(cert, base);
    }
    if PatternAllowed(cert, "*." + base) && ProbeDecides(cert, base) {
      forall prefix: string | prefix != "" ensures HostAllowed(cert, Below(prefix, base)) {
        ProbeSpeaksFor(cert, prefix, base);
      }
    }
  }

  /** So the probe and the universal statement agree exactly when an allowed probe comes with ProbeDecides. */
  lemma ProbeAgreesExactly(cert: Certificate, base: string)
    ensures (PatternAllowed(cert, "*." + base)
             <==> forall prefix :: prefix != "" ==> HostAllowed(cert, Below(prefix, base)))
            <==> (PatternAllowed(cert, "*." + base) ==> ProbeDecides(cert, base))
  {
    ProbeForAll(cert, base);
  }

  lemma AllBelowDecides(cert: Certificate, base: string)
    requires forall prefix :: prefix != "" ==> HostAllowed(cert, Below(prefix, base))
    ensures ProbeDecides(cert, base)
  {
    forall d | d in cert.excluded ensures !StrictlyBelow(d, base) {
      if StrictlyBelow(d, base) {
        var prefix := MatchedBelow(d, base);
        assert false;
      }
    }
    if cert.permitted != [] {
      var prefix := LongLabel(cert.permitted);
      assert HostAllowed(cert, Below(prefix, base));
      var d :| d in cert.permitted && DomainMatches(d, Below(prefix, base));
      if StrictlyBelow(d, base) {
        EscapesBelow(d, prefix, base);
        assert false;
      }
      UniformBelow(d, prefix, base);
    }
  }

  lemma ProbeSpeaksFor(cert: Certificate, prefix: string, base: string)
    requires prefix != "" && PatternAllowed(cert, "*." + base) && ProbeDecides(cert, base)
    ensures HostAllowed(cert, Below(prefix, base))
  {
    ProbeIsBelow(cert, base);
    forall d | d in cert.excluded ensures !DomainMatches(d, Below(prefix, base)) {
      SameBelow(d, prefix, base);
    }
    if cert.permitted != [] {
      var d :| d in cert.permitted && AtOrAbove(d, base);
      CoveredBelow(d, prefix, base);
    }
  }

  lemma ProbeIsBelow(cert: Certificate, base: string)
    ensures PatternAllowed(cert, "*." + base) <==> HostAllowed(cert, Below("subdomain", base))
  {
    assert ("*." + base)[2..] == base;
    assert "subdomain." + base == Below("subdomain", base);
  }

  lemma SameBelow(domain: string, prefix: string, base: string)
    requires prefix != "" && !StrictlyBelow(domain, base)
    ensures DomainMatches(domain, Below(prefix, base)) <==> DomainMatches(domain, Below("subdomain", base))
  {
    UniformBelow(domain, prefix, base);
    UniformBelow(domain, "subdomain", base);
  }

  lemma CoveredBelow(domain: string, prefix: string, base: string)
    requires prefix != "" && AtOrAbove(domain, base)
    ensures DomainMatches(domain, Below(prefix, base))
  {
    UniformBelow(domain, prefix, base);
  }

  /** Without an entry strictly below `base`, the probe alone is the answer for every name below it. */
  lemma ProbeSuffices(cert: Certificate, base: string)
    requires NothingBelow(cert, base)
    ensures PatternAllowed(cert, "*." + base)
            <==> forall prefix :: prefix != "" ==> HostAllowed(cert, Below(prefix, base))
  {
    ProbeForAll(cert, base);
    assert ("*." + base)[2..] == base;
    assert "subdomain." + base == Below("subdomain", base);
    if PatternAllowed(cert, "*." + base) && cert.permitted != [] {
      var d :| d in cert.permitted && DomainMatches(d, Below("subdomain", base));
      UniformBelow(d, "subdomain", base);
    }
  }

  /** The side condition is needed: a permitted "subdomain.s" passes the probe and no sibling. */
  lemma ProbeCanMislead()
    ensures var cert := Certificate(0, 0, true, true, true, 0, 0, ["subdomain.s"], []);
            PatternAllowed(cert, "*.s") && !HostAllowed(cert, "other.s")
  {
    var cert := Certificate(0, 0, true, true, true, 0, 0, ["subdomain.s"], []);
    assert ToLower("subdomain.s") == "subdomain.s";
    assert "subdomain." + "*.s"[2..] == "subdomain.s";
    assert cert.permitted[0] == "subdomain.s";
    assert DomainMatches("subdomain.s", "subdomain.s");
    assert forall d :: d in cert.permitted ==> d == "subdomain.s";
    assert !DomainMatches("subdomain.s", "other.s");
  }

  // ---------------------------------------------------------------- what an entry matches

  /**
   An entry for a name, whatever its letters' case and with or without a final dot, matches that name
   and everything below it. With a dot in front it matches only what is below.
   */
  lemma EntryMatches(entry: string, base: string, dot: string, host: string)
    requires Spells(entry, base) && (dot == "" || dot == ".")
    requires base != "" && base[0] != '.' && base[|base|-1] != '.'
    ensures DomainMatches(entry + dot, host) <==> host == base || exists front :: host == front + "." + base
    ensures DomainMatches("." + (entry + dot), host) <==> exists front :: host == front + "." + base
  {
    EntryLowers(entry, base, dot);
    LabelSuffix(host, base);
    assert ("." + base)[1..] == base;
  }

  lemma EntryLowers(entry: string, base: string, dot: string)
    requires Spells(entry, base) && (dot == "" || dot == ".")
    requires base != "" && base[|base|-1] != '.'
    ensures ToLower(TrimSuffix(entry + dot, ".")) == base
    ensures ToLower(TrimSuffix("." + (entry + dot), ".")) == "." + base
  {
    BlankKept(entry, base, |base| - 1);
    LowerSpells(entry, base);
    UndottedIs(entry + dot);
    UndottedIs("." + (entry + dot));
    assert Undotted(entry + dot) == entry;
    assert Undotted("." + (entry + dot)) == "." + entry;
    LowerSpells("." + entry, "." + base);
  }

  /** Excluded entries always count; permitted ones only if there are any, and then one of them must match. */
  lemma AllowedMeans(cert: Certificate, host: string)
    ensures cert.permitted == [] && cert.excluded == [] ==> HostAllowed(cert, host)
    ensures (exists i :: 0 <= i < |cert.excluded| && DomainMatches(cert.excluded[i], host)) ==> !HostAllowed(cert, host)
    ensures cert.excluded == [] && cert.permitted != [] ==>
              (HostAllowed(cert, host)
               <==> exists i :: 0 <= i < |cert.permitted| && DomainMatches(cert.permitted[i], host))
    ensures HostAllowed(cert, host)
            <==> HostAllowed(cert.(excluded := []), host) && HostAllowed(cert.(permitted := []), host)
  {
    assert forall d :: d in cert.permitted <==> exists i :: 0 <= i < |cert.permitted| && cert.permitted[i] == d;
  }
}
