/** Whole runs of Issuer.GetCertificate: which hosts the cache holds after any sequence of calls. */
module CacheRuns {
  import opened Results
  import opened Seqs
  import opened Certificates
  import opened Issuing

  /** The cache after a sequence of calls, starting from a given cache. */
  function After(s: Settings, cache: seq<CacheEntry>, calls: seq<Call>): seq<CacheEntry> {
    if calls == [] then cache
    else Serve(s, After(s, cache, calls[..|calls|-1]), calls[|calls|-1]).cache
  }

  /** The answer to the last call of a sequence. */
  function Answer(s: Settings, cache: seq<CacheEntry>, calls: seq<Call>): Result<Leaf, Error>
    requires calls != []
  {
    Serve(s, After(s, cache, calls[..|calls|-1]), calls[|calls|-1]).result
  }

  function Hosts(cache: seq<CacheEntry>): seq<string> {
    seq(|cache|, i requires 0 <= i < |cache| => cache[i].host)
  }

  function Least(a: nat, b: nat): nat {
    if a <= b then a else b
  }

  /** No host twice, every leaf issued for its own host, and in bounds. */
  ghost predicate Sound(s: Settings, cache: seq<CacheEntry>) {
    && Distinct(Hosts(cache))
    && |cache| <= s.cacheSize
    && forall e :: e in cache ==> e.host == e.leaf.host
  }

  lemma DroppedHosts(cache: seq<CacheEntry>, host: string)
    requires Distinct(Hosts(cache))
    ensures Hosts(Dropped(cache, host)) == Without(Hosts(cache), host)
    ensures |Dropped(cache, host)| == |cache| - if host in Hosts(cache) then 1 else 0
    ensures Distinct(Hosts(Dropped(cache, host)))
    ensures forall e :: e in Dropped(cache, host) <==> e in cache && e.host != host
  {
    var k, hosts := IndexOf(cache, host), Hosts(cache);
    if k < |cache| {
      assert hosts[k] == host;
      WithoutPops(hosts, k);
      PopDistinct(hosts, k);
      assert Hosts(Pop(cache, k)) == Pop(hosts, k);
      forall e | e in cache && e.host != host ensures e in Pop(cache, k) {
        var i :| 0 <= i < |cache| && cache[i] == e;
        assert Pop(cache, k)[if i < k then i else i - 1] == e;
      }
      forall e | e in Pop(cache, k) ensures e in cache && e.host != host {
        var i :| 0 <= i < |cache| - 1 && Pop(cache, k)[i] == e;
        assert Pop(hosts, k)[i] == e.host;
      }
    } else {
      assert host !in hosts;
      WithoutAbsent(hosts, host);
    }
  }

  /** The shape of the cache after an admitted call: an entry for the host in front exactly when it got a leaf. */
  lemma ServedShape(s: Settings, cache: seq<CacheEntry>, host: string, now: Time, signing: Signing)
    requires Sound(s, cache) && s.cacheSize > 0
    ensures var next, rest := ServeAdmitted(s, cache, host, now, signing), Dropped(cache, host);
            && (next.result.Err? ==> next.cache == rest)
            && (next.result.Ok? ==>
                  && next.cache != []
                  && next.cache[0].host == host && next.cache[0].leaf == next.result.value
                  && next.result.value.host == host
                  && next.cache == ([next.cache[0]] + rest)[..Least(s.cacheSize, 1 + |rest|)])
  {
  }

  lemma HostsPrefix(e: CacheEntry, rest: seq<CacheEntry>, n: nat)
    requires n <= 1 + |rest|
    ensures Hosts(([e] + rest)[..n]) == ([e.host] + Hosts(rest))[..n]
  {
  }

  lemma ServedHosts(s: Settings, cache: seq<CacheEntry>, host: string, now: Time, signing: Signing)
    requires Sound(s, cache) && s.cacheSize > 0
    ensures var next, rest := ServeAdmitted(s, cache, host, now, signing), Without(Hosts(cache), host);
            && (next.result.Err? ==> Hosts(next.cache) == rest)
            && (next.result.Ok? ==> Hosts(next.cache) == ([host] + rest)[..Least(s.cacheSize, 1 + |rest|)])
  {
    var next, rest := ServeAdmitted(s, cache, host, now, signing), Dropped(cache, host);
    ServedShape(s, cache, host, now, signing);
    DroppedHosts(cache, host);
    if next.result.Ok? {
      HostsPrefix(next.cache[0], rest, Least(s.cacheSize, 1 + |rest|));
    }
  }

  lemma ServeSound(s: Settings, cache: seq<CacheEntry>, call: Call)
    requires Sound(s, cache) && s.cacheSize > 0
    ensures Sound(s, Serve(s, cache, call).cache)
  {
    if Admit(s, call).Ok? {
      var host, next := Admit(s, call).value, Serve(s, cache, call).cache;
      DroppedHosts(cache, host);
      ServedShape(s, cache, host, call.now, call.signing);
      assert Distinct(Hosts(next)) by {
        ServedHosts(s, cache, host, call.now, call.signing);
        var rest := Without(Hosts(cache), host);
        assert host !in rest && Distinct([host] + rest);
      }
      forall e | e in next ensures e.host == e.leaf.host {
        assert e == next[0] || e in Dropped(cache, host);
      }
    }
  }

  lemma {:induction false} AfterSound(s: Settings, cache: seq<CacheEntry>, calls: seq<Call>)
    requires Sound(s, cache) && s.cacheSize > 0
    ensures Sound(s, After(s, cache, calls))
  {
    if calls != [] {
      AfterSound(s, cache, calls[..|calls|-1]);
      ServeSound(s, After(s, cache, calls[..|calls|-1]), calls[|calls|-1]);
    }
  }

  /** A call that passed the checks: its host, and whether it got a leaf. */
  datatype Attempt = Attempt(host: string, ok: bool)

  /** What the calls of a run that pass the checks ask for, and how they end. */
  function Attempts(s: Settings, calls: seq<Call>): seq<Attempt> {
    if calls == [] then []
    else
      var front, last := calls[..|calls|-1], calls[|calls|-1];
      match Admit(s, last)
      case Err(_) => Attempts(s, front)
      case Ok(host) => Attempts(s, front) + [Attempt(host, Answer(s, [], calls).Ok?)]
  }

  function Asked(attempts: seq<Attempt>): seq<string> {
    seq(|attempts|, i requires 0 <= i < |attempts| => attempts[i].host)
  }

  /** The latest attempt for the host got a leaf. */
  predicate LatestOk(attempts: seq<Attempt>, host: string) {
    && attempts != []
    && var last := attempts[|attempts|-1];
       if last.host == host then last.ok else LatestOk(attempts[..|attempts|-1], host)
  }

  function Succeeds(attempts: seq<Attempt>): string -> bool {
    host => LatestOk(attempts, host)
  }

  /** The distinct hosts of a history, read newest first. */
  function NewestFirst(hosts: seq<string>): seq<string> {
    Dedupe(Reverse(hosts))
  }

  /** The distinct hosts of a history, newest first, whose latest attempt got a leaf. */
  function Live(attempts: seq<Attempt>): seq<string> {
    Filter(NewestFirst(Asked(attempts)), Succeeds(attempts))
  }

  /** What an attempt does to the cached hosts: drop the host, and on success put it in front and cut off at `size`. */
  function Used(size: nat, hosts: seq<string>, a: Attempt): seq<string> {
    var rest := Without(hosts, a.host);
    if a.ok then ([a.host] + rest)[..Least(size, 1 + |rest|)] else rest
  }

  /** The least recently used discipline on host names alone, over a history of attempts. */
  function Recency(size: nat, attempts: seq<Attempt>): seq<string> {
    if attempts == [] then [] else Used(size, Recency(size, attempts[..|attempts|-1]), attempts[|attempts|-1])
  }

  /** How many cached hosts were lost to a failed attempt since the cache was last full, or since the start. */
  function LostSinceFull(size: nat, attempts: seq<Attempt>): nat {
    if attempts == [] || |Recency(size, attempts)| == size then 0
    else
      var front, last := attempts[..|attempts|-1], attempts[|attempts|-1];
      LostSinceFull(size, front) + if !last.ok && last.host in Recency(size, front) then 1 else 0
  }

  lemma NewestFirstStep(hosts: seq<string>, host: string)
    ensures NewestFirst(hosts + [host]) == [host] + Without(NewestFirst(hosts), host)
  {
    assert (hosts + [host])[..|hosts|] == hosts;
    assert Reverse(hosts + [host]) == [host] + Reverse(hosts);
    DedupeCons(host, Reverse(hosts));
  }

  lemma LiveStep(attempts: seq<Attempt>, a: Attempt)
    ensures Live(attempts + [a]) == (if a.ok then [a.host] else []) + Without(Live(attempts), a.host)
  {
    var next, recent := attempts + [a], NewestFirst(Asked(attempts));
    var was, now := Succeeds(attempts), Succeeds(next);
    assert next[..|next|-1] == attempts;
    assert Asked(next) == Asked(attempts) + [a.host];
    NewestFirstStep(Asked(attempts), a.host);
    var others := Without(recent, a.host);
    FilterAppend([a.host], others, now);
    FilterLast([], a.host, now);
    SameFilter(others, now, was);
    WithoutFilter(recent, was, a.host);
  }

  lemma LiveDistinct(attempts: seq<Attempt>)
    ensures Distinct(Live(attempts))
  {
    var at := FilterPositions(NewestFirst(Asked(attempts)), Succeeds(attempts));
  }

  lemma WithoutLength(s: seq<string>, x: string)
    requires Distinct(s)
    ensures |Without(s, x)| == |s| - if x in s then 1 else 0
  {
    if x in s {
      var k :| 0 <= k < |s| && s[k] == x;
      WithoutPops(s, k);
    } else {
      WithoutAbsent(s, x);
    }
  }

  /** What an attempt does to a prefix of the live hosts. */
  lemma UsedPrefix(size: nat, hosts: seq<string>, live: seq<string>, a: Attempt)
    requires 0 < size && |hosts| <= size && Distinct(live) && hosts <= live
    ensures var used, live' := Used(size, hosts, a), (if a.ok then [a.host] else []) + Without(live, a.host);
            && used <= live' && |used| <= size
            && (a.host in hosts ==> a.host in live)
            && |live'| == |live| + (if a.ok then 1 else 0) - (if a.host in live then 1 else 0)
            && |used| == if a.ok then Least(size, 1 + |hosts| - if a.host in hosts then 1 else 0)
                         else |hosts| - if a.host in hosts then 1 else 0
  {
    WithoutPrefix(hosts, live, a.host);
    WithoutLength(live, a.host);
    WithoutLength(hosts, a.host);
  }

  lemma RecencyLast(size: nat, attempts: seq<Attempt>, a: Attempt)
    ensures Recency(size, attempts + [a]) == Used(size, Recency(size, attempts), a)
  {
    assert (attempts + [a])[..|attempts|] == attempts;
  }

  lemma PrefixStep(size: nat, attempts: seq<Attempt>, a: Attempt)
    requires size > 0 && Recency(size, attempts) <= Live(attempts) && |Recency(size, attempts)| <= size
    ensures Recency(size, attempts + [a]) <= Live(attempts + [a]) && |Recency(size, attempts + [a])| <= size
  {
    RecencyLast(size, attempts, a);
    LiveStep(attempts, a);
    LiveDistinct(attempts);
    UsedPrefix(size, Recency(size, attempts), Live(attempts), a);
  }

  /** The recency list is a prefix of the live hosts. */
  lemma {:induction false} RecencyIsPrefixOfLive(size: nat, attempts: seq<Attempt>)
    requires size > 0
    ensures Recency(size, attempts) <= Live(attempts)
    ensures |Recency(size, attempts)| <= size
  {
    if attempts != [] {
      var front, last := attempts[..|attempts|-1], attempts[|attempts|-1];
      RecencyIsPrefixOfLive(size, front);
      PrefixStep(size, front, last);
      assert front + [last] == attempts;
    }
  }

  lemma ShortStep(size: nat, attempts: seq<Attempt>, a: Attempt)
    requires size > 0
    requires Least(size, |Live(attempts)|) <= |Recency(size, attempts)| + LostSinceFull(size, attempts)
    ensures var now := |Recency(size, attempts + [a])|;
            now < size ==> Least(size, |Live(attempts + [a])|)
                           <= now + LostSinceFull(size, attempts)
                              + if !a.ok && a.host in Recency(size, attempts) then 1 else 0
  {
    RecencyIsPrefixOfLive(size, attempts);
    RecencyLast(size, attempts, a);
    LiveStep(attempts, a);
    LiveDistinct(attempts);
    RecencyStep(size, Recency(size, attempts), Live(attempts), a, LostSinceFull(size, attempts));
  }

  /** It is short of them only by what was lost since it was last full. */
  lemma {:induction false} RecencyShortOfLive(size: nat, attempts: seq<Attempt>)
    requires size > 0
    ensures Least(size, |Live(attempts)|) <= |Recency(size, attempts)| + LostSinceFull(size, attempts)
  {
    if attempts != [] {
      var front, last := attempts[..|attempts|-1], attempts[|attempts|-1];
      RecencyShortOfLive(size, front);
      ShortStep(size, front, last);
      RecencyIsPrefixOfLive(size, attempts);
      assert front + [last] == attempts;
    }
  }

  lemma RecencyStep(size: nat, hosts: seq<string>, live: seq<string>, a: Attempt, lost: nat)
    requires 0 < size && |hosts| <= size && Distinct(live) && hosts <= live
    requires Least(size, |live|) <= |hosts| + lost
    ensures var used, live' := Used(size, hosts, a), (if a.ok then [a.host] else []) + Without(live, a.host);
            |used| < size ==> Least(size, |live'|) <= |used| + lost + if !a.ok && a.host in hosts then 1 else 0
  {
    UsedPrefix(size, hosts, live, a);
  }

  /** After any run, failed issues included, the cached hosts are what the attempts leave on the recency list. */
  lemma {:induction false} CacheIsRecency(s: Settings, calls: seq<Call>)
    requires s.cacheSize > 0
    ensures Hosts(After(s, [], calls)) == Recency(s.cacheSize, Attempts(s, calls))
  {
    if calls != [] {
      var front, last := calls[..|calls|-1], calls[|calls|-1];
      CacheIsRecency(s, front);
      AfterSound(s, [], front);
      match Admit(s, last)
      case Err(_) =>
      case Ok(host) =>
        ServedHosts(s, After(s, [], front), host, last.now, last.signing);
        var a := Attempt(host, Answer(s, [], calls).Ok?);
        assert (Attempts(s, front) + [a])[..|Attempts(s, front)|] == Attempts(s, front);
    }
  }

  /**
   After any run the cached hosts are the newest live hosts: a prefix of the distinct hosts, newest
   first, whose latest attempt got a leaf. The prefix is as long as the cache size allows, short by
   at most the cached hosts whose renewal failed since the cache was last full.
   */
  lemma CacheIsPrefixOfLive(s: Settings, calls: seq<Call>)
    requires s.cacheSize > 0
    ensures var hosts, attempts := Hosts(After(s, [], calls)), Attempts(s, calls);
            && hosts <= Live(attempts)
            && Least(s.cacheSize, |Live(attempts)|) <= |hosts| + LostSinceFull(s.cacheSize, attempts)
  {
    CacheIsRecency(s, calls);
    RecencyIsPrefixOfLive(s.cacheSize, Attempts(s, calls));
    RecencyShortOfLive(s.cacheSize, Attempts(s, calls));
  }

  predicate AllOk(attempts: seq<Attempt>) {
    forall a :: a in attempts ==> a.ok
  }

  /**
   Failures are forgotten: whatever came before, after attempts that all succeed the cache starts
   with their distinct hosts, newest first; once they fill it, it holds nothing else.
   */
  lemma {:induction false} FailuresAreForgotten(size: nat, before: seq<Attempt>, since: seq<Attempt>)
    requires size > 0 && AllOk(since)
    ensures var recent := NewestFirst(Asked(since));
            && recent[..Least(size, |recent|)] <= Recency(size, before + since)
            && (|recent| >= size ==> Recency(size, before + since) == recent[..size])
  {
    RecencyIsPrefixOfLive(size, before + since);
    if since == [] {
      assert before + since == before;
    } else {
      var front, last := since[..|since|-1], since[|since|-1];
      assert last in since && forall a :: a in front ==> a in since;
      FailuresAreForgotten(size, before, front);
      RecencyIsPrefixOfLive(size, before + front);
      UsedStart(size, Recency(size, before + front), NewestFirst(Asked(front)), last);
      AskedOnceMore(front, last);
      assert (before + since)[..|before + since| - 1] == before + front && front + [last] == since;
    }
  }

  lemma AskedOnceMore(attempts: seq<Attempt>, a: Attempt)
    ensures NewestFirst(Asked(attempts + [a])) == [a.host] + Without(NewestFirst(Asked(attempts)), a.host)
  {
    assert Asked(attempts + [a]) == Asked(attempts) + [a.host];
    NewestFirstStep(Asked(attempts), a.host);
  }

  /** A list that starts with the newest hosts still does after one more success. */
  lemma UsedStart(size: nat, hosts: seq<string>, recent: seq<string>, a: Attempt)
    requires 0 < size && a.ok && |hosts| <= size && Distinct(recent)
    requires recent[..Least(size, |recent|)] <= hosts
    ensures var next := [a.host] + Without(recent, a.host);
            next[..Least(size, |next|)] <= Used(size, hosts, a)
  {
    var start := recent[..Least(size, |recent|)];
    WithoutPrefix(start, hosts, a.host);
    WithoutPrefix(start, recent, a.host);
    WithoutLength(start, a.host);
    WithoutLength(recent, a.host);
  }

  /** Signing never fails during the run. */
  predicate SigningWorks(calls: seq<Call>) {
    forall c :: c in calls ==> c.signing.Signs?
  }

  /** The hosts of the calls that pass the checks; the cache plays no part in it. */
  function Requested(s: Settings, calls: seq<Call>): seq<string> {
    if calls == [] then []
    else
      match Admit(s, calls[|calls|-1])
      case Err(_) => Requested(s, calls[..|calls|-1])
      case Ok(host) => Requested(s, calls[..|calls|-1]) + [host]
  }

  /** Behind the readiness check a leaf always has time left, so "issuer certificate has expired" never comes up. */
  lemma NeverExpiredWhenReady(s: Settings, host: string, now: Time, signing: Signing)
    requires s.leafValidity > 0 && ReadyAt(s, now) == None
    ensures LeafEnd(s, now) > now
    ensures Issue(s, host, now, signing) != Err(IssuerExpired)
    ensures signing.Signs? ==> Issue(s, host, now, signing).Ok?
  {
  }

  /** The host is cached, with a leaf that is not due. */
  predicate Hit(cache: seq<CacheEntry>, host: string, now: Time) {
    IndexOf(cache, host) < |cache| && !NeedsRenewal(cache[IndexOf(cache, host)].leaf, now)
  }

  /** A request that passed the checks succeeds exactly when it is a hit or signing works. */
  lemma SucceedsExactly(s: Settings, cache: seq<CacheEntry>, host: string, now: Time, signing: Signing)
    requires s.leafValidity > 0 && ReadyAt(s, now) == None
    ensures ServeAdmitted(s, cache, host, now, signing).result.Ok? <==> Hit(cache, host, now) || signing.Signs?
  {
    NeverExpiredWhenReady(s, host, now, signing);
  }

  /** With signing that works, an admitted call gets a leaf and loses no cached host. */
  lemma WorkingCallSucceeds(s: Settings, cache: seq<CacheEntry>, call: Call)
    requires s.leafValidity > 0 && s.cacheSize > 0 && call.signing.Signs?
    requires Sound(s, cache) && Admit(s, call).Ok?
    ensures Serve(s, cache, call).result.Ok?
    ensures |Serve(s, cache, call).cache| >= |cache|
  {
  }

  lemma {:induction false} WorkingRunsSucceed(s: Settings, calls: seq<Call>)
    requires s.leafValidity > 0 && s.cacheSize > 0 && SigningWorks(calls)
    ensures Asked(Attempts(s, calls)) == Requested(s, calls)
    ensures AllOk(Attempts(s, calls))
  {
    if calls != [] {
      var front, last := calls[..|calls|-1], calls[|calls|-1];
      var cache := After(s, [], front);
      WorkingRunsSucceed(s, front);
      AfterSound(s, [], front);
      if Admit(s, last).Ok? {
        WorkingCallSucceeds(s, cache, last);
        var attempt := Attempt(Admit(s, last).value, true);
        assert Attempts(s, calls) == Attempts(s, front) + [attempt];
        assert Asked(Attempts(s, front) + [attempt]) == Asked(Attempts(s, front)) + [attempt.host];
      }
    }
  }

  lemma {:induction false} AllOkAreLive(attempts: seq<Attempt>, host: string)
    requires AllOk(attempts)
    requires host in Asked(attempts)
    ensures LatestOk(attempts, host)
  {
    var front, last := attempts[..|attempts|-1], attempts[|attempts|-1];
    if last.host != host {
      assert Asked(attempts) == Asked(front) + [last.host];
      AllOkAreLive(front, host);
    }
  }

  /**
   On a run in which signing works, the cached hosts, front to back, are exactly the first
   `cacheSize` distinct hosts of the request history read newest first.
   */
  lemma CacheIsNewestRequested(s: Settings, calls: seq<Call>)
    requires s.leafValidity > 0 && s.cacheSize > 0 && SigningWorks(calls)
    ensures var recent := NewestFirst(Requested(s, calls));
            Hosts(After(s, [], calls)) == recent[..Least(s.cacheSize, |recent|)]
  {
    var attempts := Attempts(s, calls);
    CacheIsRecency(s, calls);
    RecencyIsPrefixOfLive(s.cacheSize, attempts);
    WorkingRunsSucceed(s, calls);
    FailuresAreForgotten(s.cacheSize, [], attempts);
    assert [] + attempts == attempts;
    var recent := NewestFirst(Requested(s, calls));
    forall h | h in recent ensures LatestOk(Attempts(s, calls), h) {
      assert h in Requested(s, calls);
      AllOkAreLive(Attempts(s, calls), h);
    }
    FilterAll(recent, Succeeds(Attempts(s, calls)));
  }

  /**
   One request against a smaller and a larger cache whose hosts start alike: they still start alike
   afterwards exactly when the request ends the same way in both, or leaves the smaller one empty.
   */
  lemma SmallerStaysPrefixExactly(
      size: nat, larger: nat, hosts: seq<string>, more: seq<string>, host: string, ok: bool, okLarger: bool)
    requires 0 < size <= larger && |hosts| <= size && Distinct(more) && hosts <= more
    ensures Used(size, hosts, Attempt(host, ok)) <= Used(larger, more, Attempt(host, okLarger))
            <==> ok == okLarger || (!ok && Without(hosts, host) == [])
  {
    var rest, moreRest := Without(hosts, host), Without(more, host);
    WithoutPrefix(hosts, more, host);
    assert host !in rest && host !in moreRest;
    if !ok && okLarger && rest != [] {
      assert rest[0] in rest;
    }
    if ok && !okLarger && moreRest != [] {
      assert moreRest[0] in moreRest;
    }
  }

  /** On the same attempts, failures included, a smaller recency list is a prefix of a larger one. */
  lemma {:induction false} SmallerRecencyIsPrefix(size: nat, larger: nat, attempts: seq<Attempt>)
    requires 0 < size <= larger
    ensures Recency(size, attempts) <= Recency(larger, attempts)
  {
    if attempts != [] {
      var front, last := attempts[..|attempts|-1], attempts[|attempts|-1];
      SmallerRecencyIsPrefix(size, larger, front);
      RecencyIsPrefixOfLive(size, front);
      RecencyIsPrefixOfLive(larger, front);
      LiveDistinct(front);
      SmallerStaysPrefixExactly(
        size, larger, Recency(size, front), Recency(larger, front), last.host, last.ok, last.ok);
    }
  }

  /** A smaller cache holds a prefix of what a larger one holds, on every run whose requests end alike in both. */
  lemma SmallerCacheIsPrefix(s: Settings, larger: nat, calls: seq<Call>)
    requires 0 < s.cacheSize <= larger
    requires Attempts(s, calls) == Attempts(s.(cacheSize := larger), calls)
    ensures Hosts(After(s, [], calls)) <= Hosts(After(s.(cacheSize := larger), [], calls))
  {
    CacheIsRecency(s, calls);
    CacheIsRecency(s.(cacheSize := larger), calls);
    SmallerRecencyIsPrefix(s.cacheSize, larger, Attempts(s, calls));
  }

  /** What a caller can tell before a call: whether it will keep the order of a smaller and a larger cache. */
  predicate KeepsOrder(s: Settings, cache: seq<CacheEntry>, more: seq<CacheEntry>, call: Call) {
    match Admit(s, call)
    case Err(_) => true
    case Ok(host) =>
      || call.signing.Signs?
      || Hit(cache, host, call.now) == Hit(more, host, call.now)
      || (!Hit(cache, host, call.now) && Without(Hosts(cache), host) == [])
  }

  /**
   One call on a smaller and a larger cache whose hosts start alike: they still start alike afterwards
   exactly when the call is refused by the checks, or signing works, or the host is a hit in both caches
   or in neither, or it is none in the smaller one, which holds no other host.
   */
  lemma ServeKeepsOrderExactly(
      s: Settings, larger: nat, cache: seq<CacheEntry>, more: seq<CacheEntry>, call: Call)
    requires s.leafValidity > 0 && 0 < s.cacheSize <= larger
    requires Sound(s, cache) && Sound(s.(cacheSize := larger), more) && Hosts(cache) <= Hosts(more)
    ensures Hosts(Serve(s, cache, call).cache) <= Hosts(Serve(s.(cacheSize := larger), more, call).cache)
            <==> KeepsOrder(s, cache, more, call)
  {
    AdmitIgnoresSize(s, larger, call);
    if Admit(s, call).Ok? {
      AdmittedKeepsOrder(s, larger, cache, more, Admit(s, call).value, call.now, call.signing);
    }
  }

  lemma AdmittedKeepsOrder(
      s: Settings, larger: nat, cache: seq<CacheEntry>, more: seq<CacheEntry>,
      host: string, now: Time, signing: Signing)
    requires s.leafValidity > 0 && 0 < s.cacheSize <= larger && ReadyAt(s, now) == None
    requires Sound(s, cache) && Sound(s.(cacheSize := larger), more) && Hosts(cache) <= Hosts(more)
    ensures Hosts(ServeAdmitted(s, cache, host, now, signing).cache)
            <= Hosts(ServeAdmitted(s.(cacheSize := larger), more, host, now, signing).cache)
            <==> || signing.Signs?
                 || Hit(cache, host, now) == Hit(more, host, now)
                 || (!Hit(cache, host, now) && Without(Hosts(cache), host) == [])
  {
    var other := s.(cacheSize := larger);
    SucceedsExactly(s, cache, host, now, signing);
    SucceedsExactly(other, more, host, now, signing);
    UsedByServing(s, cache, host, now, signing);
    UsedByServing(other, more, host, now, signing);
    SmallerStaysPrefixExactly(
      s.cacheSize, larger, Hosts(cache), Hosts(more), host,
      Hit(cache, host, now) || signing.Signs?, Hit(more, host, now) || signing.Signs?);
  }

  lemma UsedByServing(s: Settings, cache: seq<CacheEntry>, host: string, now: Time, signing: Signing)
    requires Sound(s, cache) && s.cacheSize > 0
    ensures var next := ServeAdmitted(s, cache, host, now, signing);
            Hosts(next.cache) == Used(s.cacheSize, Hosts(cache), Attempt(host, next.result.Ok?))
  {
    ServedHosts(s, cache, host, now, signing);
  }

  predicate OrderAfter(s: Settings, larger: nat, calls: seq<Call>) {
    Hosts(After(s, [], calls)) <= Hosts(After(s.(cacheSize := larger), [], calls))
  }

  /** After every prefix of the run, the smaller cache holds a prefix of what the larger one holds. */
  predicate OrderHolds(s: Settings, larger: nat, calls: seq<Call>) {
    && OrderAfter(s, larger, calls)
    && (calls != [] ==> OrderHolds(s, larger, calls[..|calls|-1]))
  }

  /** Each call of the run keeps the order of the two caches it finds. */
  predicate EachKeepsOrder(s: Settings, larger: nat, calls: seq<Call>) {
    calls != [] ==>
      var front := calls[..|calls|-1];
      && KeepsOrder(s, After(s, [], front), After(s.(cacheSize := larger), [], front), calls[|calls|-1])
      && EachKeepsOrder(s, larger, front)
  }

  /** Over runs, failures included: the order holds all along exactly when every call keeps it. */
  lemma {:induction false} OrderHoldsExactly(s: Settings, larger: nat, calls: seq<Call>)
    requires s.leafValidity > 0 && 0 < s.cacheSize <= larger
    ensures OrderHolds(s, larger, calls) <==> EachKeepsOrder(s, larger, calls)
  {
    if calls != [] {
      var front := calls[..|calls|-1];
      OrderHoldsExactly(s, larger, front);
      if OrderHolds(s, larger, front) {
        LastKeepsOrder(s, larger, calls);
      }
    }
  }

  lemma LastKeepsOrder(s: Settings, larger: nat, calls: seq<Call>)
    requires s.leafValidity > 0 && 0 < s.cacheSize <= larger
    requires calls != [] && OrderAfter(s, larger, calls[..|calls|-1])
    ensures var front := calls[..|calls|-1];
            OrderAfter(s, larger, calls)
            <==> KeepsOrder(s, After(s, [], front), After(s.(cacheSize := larger), [], front), calls[|calls|-1])
  {
    var other, front := s.(cacheSize := larger), calls[..|calls|-1];
    AfterSound(s, [], front);
    AfterSound(other, [], front);
    ServeKeepsOrderExactly(s, larger, After(s, [], front), After(other, [], front), calls[|calls|-1]);
  }

  /** When signing works, the requests of a run end alike whatever the cache size. */
  lemma WorkingRunsEndAlike(s: Settings, larger: nat, calls: seq<Call>)
    requires s.leafValidity > 0 && 0 < s.cacheSize <= larger && SigningWorks(calls)
    ensures Attempts(s, calls) == Attempts(s.(cacheSize := larger), calls)
    ensures Hosts(After(s, [], calls)) <= Hosts(After(s.(cacheSize := larger), [], calls))
  {
    var other := s.(cacheSize := larger);
    WorkingRunsSucceed(s, calls);
    WorkingRunsSucceed(other, calls);
    RequestedIgnoresSize(s, larger, calls);
    SameAttempts(Attempts(s, calls), Attempts(other, calls));
    SmallerCacheIsPrefix(s, larger, calls);
  }

  lemma SameAttempts(a: seq<Attempt>, b: seq<Attempt>)
    requires AllOk(a) && AllOk(b) && Asked(a) == Asked(b)
    ensures a == b
  {
    forall i | 0 <= i < |a| ensures a[i] == b[i] {
      assert |Asked(b)| == |b| && Asked(a)[i] == Asked(b)[i];
      assert a[i] in a && b[i] in b;
    }
  }

  lemma AdmitIgnoresSize(s: Settings, larger: nat, call: Call)
    ensures Admit(s.(cacheSize := larger), call) == Admit(s, call)
  {
  }

  lemma {:induction false} RequestedIgnoresSize(s: Settings, larger: nat, calls: seq<Call>)
    ensures Requested(s.(cacheSize := larger), calls) == Requested(s, calls)
  {
    if calls != [] {
      RequestedIgnoresSize(s, larger, calls[..|calls|-1]);
      AdmitIgnoresSize(s, larger, calls[|calls|-1]);
    }
  }
}
