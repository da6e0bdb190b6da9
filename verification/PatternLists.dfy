/** Lists of hosts and patterns in internal/pki/pki.go: normalising, removing repeats, and the CA filter. */
module PatternLists {
  import opened Results
  import opened Seqs
  import opened PkiHosts
  import opened Certificates
  import opened NameConstraints

  type Normalizer = string -> Result<string, HostError>

  function NormalizeListSpec(norm: Normalizer, hosts: seq<string>): Result<seq<string>, HostError> {
    if hosts == [] then Err(NoHosts)
    else
      match TryEach(norm, hosts)
      case Err(e) => Err(e)
      case Ok(names) => Ok(Dedupe(names))
  }

  function NormalizePatterns(hosts: seq<string>): Result<seq<string>, HostError> {
    NormalizeListSpec(NormalizePattern, hosts)
  }

  function NormalizeHosts(hosts: seq<string>): Result<seq<string>, HostError> {
    NormalizeListSpec(NormalizeHost, hosts)
  }

  /** The loop of normalizeHosts and normalizePatterns, which differ only in the normaliser. */
  method NormalizeList(norm: Normalizer, hosts: seq<string>) returns (r: Result<seq<string>, HostError>)
    ensures r == NormalizeListSpec(norm, hosts)
  {
    if |hosts| == 0 {
      return Err(NoHosts);
    }
    var result: seq<string> := [];
    var seen: set<string> := {};
    ghost var names: seq<string> := [];
    for i := 0 to |hosts|
      invariant TryEach(norm, hosts[..i]) == Ok(names)
      invariant result == Dedupe(names)
      invariant forall x :: x in seen <==> x in result
    {
      assert hosts[..i+1][..i] == hosts[..i];
      var normalized := norm(hosts[i]);
      if normalized.Err? {
        TryEachFails(norm, hosts, i + 1);
        return Err(normalized.error);
      }
      ghost var front := names;
      names := names + [normalized.value];
      assert names[..|names|-1] == front;
      if normalized.value in seen {
        continue;
      }
      seen := seen + {normalized.value};
      result := result + [normalized.value];
    }
    assert hosts[..|hosts|] == hosts;
    return Ok(result);
  }

  /**
   A list of hosts or patterns is accepted exactly when it is not empty and every entry is, and becomes
   the distinct normal forms in the order in which they first occur.
   */
  lemma NormalizedListExactly(norm: Normalizer, hosts: seq<string>) returns (at: seq<nat>)
    ensures NormalizeListSpec(norm, hosts).Ok? <==> hosts != [] && forall i :: 0 <= i < |hosts| ==> norm(hosts[i]).Ok?
    ensures NormalizeListSpec(norm, hosts).Ok? ==>
              var names := NormalizeListSpec(norm, hosts).value;
              && Distinct(names) && |at| == |names|
              && (forall i :: 0 <= i < |hosts| ==> norm(hosts[i]).value in names)
              && (forall i :: 0 <= i < |names| ==> at[i] < |hosts| && norm(hosts[at[i]]) == Ok(names[i]))
              && (forall i :: 0 <= i < |names| ==> forall j :: 0 <= j < at[i] ==> norm(hosts[j]) != Ok(names[i]))
              && (forall i, j :: 0 <= i < j < |names| ==> at[i] < at[j])
  {
    at := [];
    TryEachExactly(norm, hosts);
    if NormalizeListSpec(norm, hosts).Ok? {
      var each := TryEach(norm, hosts).value;
      TryEachElement(norm, hosts);
      at := DedupePositions(each);
      forall i, j | 0 <= i < |at| && 0 <= j < at[i] ensures each[j] != each[at[i]] {
        assert each[j] in each[..at[i]] by { assert each[..at[i]][j] == each[j]; }
      }
      forall i | 0 <= i < |hosts| ensures norm(hosts[i]).value in Dedupe(each) {
        assert each[i] in each;
      }
    }
  }

  /** A list that is refused is empty, or has the error of its first entry that is not accepted. */
  lemma NormalizedListFails(norm: Normalizer, hosts: seq<string>)
    requires NormalizeListSpec(norm, hosts).Err?
    ensures var e := NormalizeListSpec(norm, hosts).error;
            || (hosts == [] && e == NoHosts)
            || exists k :: 0 <= k < |hosts| && norm(hosts[k]) == Err(e) && forall i :: 0 <= i < k ==> norm(hosts[i]).Ok?
  {
    TryEachExactly(norm, hosts);
  }

  /** A normalised list has no repeats, holds exactly the normal forms of its entries, and is its own normal form. */
  lemma NormalizedPatterns(hosts: seq<string>)
    requires NormalizePatterns(hosts).Ok?
    ensures var names := NormalizePatterns(hosts).value;
            && names != []
            && Distinct(names)
            && (forall p :: p in names ==> Pattern(p))
            && (forall p :: p in names <==> exists h :: h in hosts && NormalizePattern(h) == Ok(p))
            && NormalizePatterns(names) == Ok(names)
  {
    var each := TryEach(NormalizePattern, hosts).value;
    var names := NormalizePatterns(hosts).value;
    TryEachElement(NormalizePattern, hosts);
    assert each[0] in names;
    forall p | p in names
      ensures exists h :: h in hosts && NormalizePattern(h) == Ok(p)
      ensures Pattern(p) && NormalizePattern(p) == Ok(p)
    {
      var i :| 0 <= i < |each| && each[i] == p;
      assert hosts[i] in hosts && NormalizePattern(hosts[i]) == Ok(p);
      NormalizePatternFixedPoints(hosts[i]);
      NormalizePatternFixedPoints(p);
    }
    forall h | h in hosts && NormalizePattern(h).Ok? ensures NormalizePattern(h).value in names {
      var i :| 0 <= i < |hosts| && hosts[i] == h;
      assert each[i] in each;
    }
    TryEachFixed(NormalizePattern, names);
    DedupeFixed(names);
  }

  predicate Permitted(root: Certificate, intermediate: Certificate, pattern: string) {
    PatternAllowed(root, pattern) && PatternAllowed(intermediate, pattern)
  }

  function Keep(root: Certificate, intermediate: Certificate): string -> bool {
    p => Permitted(root, intermediate, p)
  }

  function Drop(root: Certificate, intermediate: Certificate): string -> bool {
    p => !Permitted(root, intermediate, p)
  }

  datatype Filtered = Filtered(kept: seq<string>, skipped: seq<string>)

  function FilterHostsSpec(root: Certificate, intermediate: Certificate, hosts: seq<string>)
    : Result<Filtered, HostError>
  {
    match NormalizePatterns(hosts)
    case Err(e) => Err(e)
    case Ok(names) =>
      Ok(Filtered(Filter(names, Keep(root, intermediate)), Filter(names, Drop(root, intermediate))))
  }

  /** FilterHosts on certificates that parsed. */
  method FilterHosts(root: Certificate, intermediate: Certificate, hosts: seq<string>)
    returns (r: Result<Filtered, HostError>)
    ensures r == FilterHostsSpec(root, intermediate, hosts)
  {
    var normalized := NormalizeList(NormalizePattern, hosts);
    if normalized.Err? {
      return Err(normalized.error);
    }
    var names := normalized.value;
    var allowed: seq<string>, skipped: seq<string> := [], [];
    for i := 0 to |names|
      invariant allowed == Filter(names[..i], Keep(root, intermediate))
      invariant skipped == Filter(names[..i], Drop(root, intermediate))
    {
      assert names[..i+1][..i] == names[..i];
      ghost var keep, drop := Keep(root, intermediate), Drop(root, intermediate);
      assert keep(names[i]) <==> Permitted(root, intermediate, names[i]);
      if PatternAllowed(root, names[i]) && PatternAllowed(intermediate, names[i]) {
        allowed := allowed + [names[i]];
      } else {
        skipped := skipped + [names[i]];
      }
    }
    assert names[..|names|] == names;
    return Ok(Filtered(allowed, skipped));
  }

  lemma {:induction false} FilterSplits(s: seq<string>, keep: string -> bool)
    ensures multiset(Filter(s, keep)) + multiset(Filter(s, x => !keep(x))) == multiset(s)
  {
    if s != [] {
      FilterSplits(s[..|s|-1], keep);
      assert s == s[..|s|-1] + [s[|s|-1]];
    }
  }

  lemma FilterDistinct(s: seq<string>, keep: string -> bool)
    requires Distinct(s)
    ensures Distinct(Filter(s, keep))
  {
  }

  /**
   FilterHosts is a partition of the normalised list, decided by the two certificates, that keeps
   its order on both sides: each half is read off at increasing positions.
   */
  lemma FilterHostsPartition(root: Certificate, intermediate: Certificate, hosts: seq<string>)
    returns (keptAt: seq<nat>, skippedAt: seq<nat>)
    requires FilterHostsSpec(root, intermediate, hosts).Ok?
    ensures var names, f := NormalizePatterns(hosts).value, FilterHostsSpec(root, intermediate, hosts).value;
            && (forall p :: p in f.kept <==> p in names && Permitted(root, intermediate, p))
            && (forall p :: p in f.skipped <==> p in names && !Permitted(root, intermediate, p))
            && multiset(f.kept) + multiset(f.skipped) == multiset(names)
            && Selects(f.kept, names, keptAt) && Selects(f.skipped, names, skippedAt)
  {
    var names := NormalizePatterns(hosts).value;
    var keep, drop := Keep(root, intermediate), Drop(root, intermediate);
    keptAt := FilterPositions(names, keep);
    skippedAt := FilterPositions(names, drop);
    FilterSplits(names, keep);
    SameFilter(names, x => !keep(x), drop);
  }

  /** Filtering the kept half again keeps all of it. */
  lemma FilterHostsIdempotent(root: Certificate, intermediate: Certificate, hosts: seq<string>)
    requires FilterHostsSpec(root, intermediate, hosts).Ok?
    ensures var kept := FilterHostsSpec(root, intermediate, hosts).value.kept;
            kept != [] ==> FilterHostsSpec(root, intermediate, kept) == Ok(Filtered(kept, []))
  {
    var kept := FilterHostsSpec(root, intermediate, hosts).value.kept;
    if kept != [] {
      KeptIsNormal(root, intermediate, hosts);
      FilterAll(kept, Keep(root, intermediate));
      FilterNone(kept, Drop(root, intermediate));
    }
  }

  ghost predicate Selects(part: seq<string>, all: seq<string>, at: seq<nat>) {
    && |at| == |part|
    && (forall i, j :: 0 <= i < j < |at| ==> at[i] < at[j])
    && forall i :: 0 <= i < |at| ==> at[i] < |all| && part[i] == all[at[i]]
  }

  /** The kept half is a list of distinct normal patterns, so normalising it again is the identity. */
  lemma KeptIsNormal(root: Certificate, intermediate: Certificate, hosts: seq<string>)
    requires FilterHostsSpec(root, intermediate, hosts).Ok?
    requires FilterHostsSpec(root, intermediate, hosts).value.kept != []
    ensures var kept := FilterHostsSpec(root, intermediate, hosts).value.kept;
            NormalizePatterns(kept) == Ok(kept) && Distinct(kept) && forall p :: p in kept ==> Pattern(p)
  {
    var names, kept := NormalizePatterns(hosts).value, FilterHostsSpec(root, intermediate, hosts).value.kept;
    NormalizedPatterns(hosts);
    FilterDistinct(names, Keep(root, intermediate));
    forall p | p in kept ensures NormalizePattern(p) == Ok(p) {
      NormalizePatternFixedPoints(p);
    }
    TryEachFixed(NormalizePattern, kept);
    DedupeFixed(kept);
  }

  /** A kept pattern is normal, permitted, and the normal form of an entry of the list. */
  lemma KeptComesFrom(root: Certificate, intermediate: Certificate, hosts: seq<string>)
    requires FilterHostsSpec(root, intermediate, hosts).Ok?
    ensures forall p :: p in FilterHostsSpec(root, intermediate, hosts).value.kept ==>
              Pattern(p) && Permitted(root, intermediate, p) && exists h :: h in hosts && NormalizePattern(h) == Ok(p)
  {
    NormalizedPatterns(hosts);
  }
}
