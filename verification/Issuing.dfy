/**
 What one call to Issuer.GetCertificate (internal/pki/pki.go) does, on values: the checks before
 the cache, issuing and renewal arithmetic, and the step the cache takes.
 */
module Issuing {
  import opened Results
  import opened GoStrings
  import opened Seqs
  import opened Certificates
  import opened NameConstraints
  import PkiHosts

  const BACKDATE: Duration := 300 * SECOND

  datatype Settings = Settings(
    root: Certificate,
    intermediate: Certificate,
    hosts: set<string>,
    suffixes: seq<string>,
    leafValidity: Duration,
    cacheSize: nat)

  datatype Error =
    | NoHello
    | InvalidSni(cause: PkiHosts.HostError)
    | NotConfigured(host: string)
    | RootNotValid(when: Window)
    | IntermediateNotValid(when: Window)
    | NoSerial
    | IssuerExpired
    | NoKey
    | NoKeyId
    | NoSignature
    | NotParsed

  /** How the random source, key generation, signing and parsing behave during one issue. */
  datatype Signing = SerialFails | KeyFails | KeyIdFails | SignFails | ParseFails | Signs(serial: nat)

  datatype Call = Call(hello: Option<string>, now: Time, signing: Signing)

  datatype CacheEntry = CacheEntry(host: string, leaf: Leaf)

  /** The exact-set and suffix-list test of Issuer.allows. */
  predicate Named(s: Settings, host: string) {
    host in s.hosts || exists suffix :: suffix in s.suffixes && HasSuffix(host, "." + suffix)
  }

  predicate Allows(s: Settings, host: string) {
    HostAllowed(s.root, host) && HostAllowed(s.intermediate, host) && Named(s, host)
  }

  function ReadyAt(s: Settings, now: Time): Option<Error> {
    if ValidAt(s.root, now) != Inside then Some(RootNotValid(ValidAt(s.root, now)))
    else if ValidAt(s.intermediate, now) != Inside then Some(IntermediateNotValid(ValidAt(s.intermediate, now)))
    else None
  }

  function ExpiresAt(s: Settings): Time {
    if s.root.notAfter < s.intermediate.notAfter then s.root.notAfter else s.intermediate.notAfter
  }

  /** The end asked for a leaf: its validity, cut off at both issuers' ends. */
  function LeafEnd(s: Settings, now: Time): Time {
    Min(Min(now + s.leafValidity, s.intermediate.notAfter), s.root.notAfter)
  }

  /** The leaf that signing at `now` yields, as read back from its encoding. */
  function NewLeaf(s: Settings, host: string, now: Time, serial: nat): Leaf {
    Leaf(serial, host, WholeSecond(now - BACKDATE), WholeSecond(LeafEnd(s, now)))
  }

  function Issue(s: Settings, host: string, now: Time, signing: Signing): Result<Leaf, Error> {
    if signing.SerialFails? then Err(NoSerial)
    else if LeafEnd(s, now) <= now then Err(IssuerExpired)
    else
      match signing
      case KeyFails => Err(NoKey)
      case KeyIdFails => Err(NoKeyId)
      case SignFails => Err(NoSignature)
      case ParseFails => Err(NotParsed)
      case Signs(serial) => Ok(NewLeaf(s, host, now, serial))
  }

  predicate NeedsRenewal(leaf: Leaf, now: Time) {
    Sub(leaf.notAfter, now) < Third(Sub(leaf.notAfter, leaf.notBefore))
  }

  /** The checks a call passes before the cache is looked at, and the host they yield. */
  function Admit(s: Settings, call: Call): Result<string, Error> {
    match call.hello
    case None => Err(NoHello)
    case Some(name) =>
      match PkiHosts.NormalizeHost(name)
      case Err(e) => Err(InvalidSni(e))
      case Ok(host) =>
        if !Allows(s, host) then Err(NotConfigured(host))
        else
          match ReadyAt(s, call.now)
          case Some(e) => Err(e)
          case None => Ok(host)
  }

  /** The position of a host in the cache, or the cache's length. */
  function IndexOf(cache: seq<CacheEntry>, host: string): (k: nat)
    ensures k <= |cache|
    ensures k < |cache| ==> cache[k].host == host
    ensures forall i :: 0 <= i < k ==> cache[i].host != host
  {
    if cache == [] || cache[0].host == host then 0 else 1 + IndexOf(cache[1..], host)
  }

  function Dropped(cache: seq<CacheEntry>, host: string): seq<CacheEntry> {
    var k := IndexOf(cache, host);
    if k < |cache| then Pop(cache, k) else cache
  }

  function Evicted(cache: seq<CacheEntry>, size: nat): seq<CacheEntry> {
    if |cache| > size then cache[..|cache|-1] else cache
  }

  datatype Served = Served(cache: seq<CacheEntry>, result: Result<Leaf, Error>)

  /** What the cache does for a host that passed the checks; entries are most recently used first. */
  function ServeAdmitted(s: Settings, cache: seq<CacheEntry>, host: string, now: Time, signing: Signing): Served {
    var k, rest := IndexOf(cache, host), Dropped(cache, host);
    if k < |cache| && !NeedsRenewal(cache[k].leaf, now) then
      Served([cache[k]] + rest, Ok(cache[k].leaf))
    else
      match Issue(s, host, now, signing)
      case Err(e) => Served(rest, Err(e))
      case Ok(leaf) => Served(Evicted([CacheEntry(host, leaf)] + rest, s.cacheSize), Ok(leaf))
  }

  function Serve(s: Settings, cache: seq<CacheEntry>, call: Call): Served {
    match Admit(s, call)
    case Err(e) => Served(cache, Err(e))
    case Ok(host) => ServeAdmitted(s, cache, host, call.now, call.signing)
  }
}
