/** What the leaves returned over a run are good for, when they are renewed, and how long they stay the same. */
module LeafRuns {
  import opened Results
  import opened Seqs
  import opened Certificates
  import opened Issuing
  import opened CacheRuns
  import PkiHosts

  /** An issuer whose certificates were read back from their encoding. */
  predicate Loaded(s: Settings) {
    Parsed(s.root) && Parsed(s.intermediate) && s.leafValidity > 0 && s.cacheSize > 0
  }

  /** The leaf was signed for its host at an instant when the issuer was ready. */
  ghost predicate IssuedAt(s: Settings, leaf: Leaf, t: Time) {
    ReadyAt(s, t) == None && leaf == NewLeaf(s, leaf.host, t, leaf.serial)
  }

  /** The clock never reads more than the backdate below an earlier reading. */
  ghost predicate Steady(calls: seq<Call>) {
    forall i, j :: 0 <= i < j < |calls| ==> calls[j].now >= calls[i].now - BACKDATE
  }

  /** Every cached leaf was issued by some earlier call. */
  ghost predicate Traced(s: Settings, cache: seq<CacheEntry>, calls: seq<Call>) {
    forall e :: e in cache ==> exists i :: 0 <= i < |calls| && IssuedAt(s, e.leaf, calls[i].now)
  }

  lemma TraceGrows(s: Settings, cache: seq<CacheEntry>, calls: seq<Call>, last: Call)
    requires Traced(s, cache, calls)
    ensures Traced(s, cache, calls + [last])
  {
    forall e | e in cache ensures exists i :: 0 <= i < |calls| + 1 && IssuedAt(s, e.leaf, (calls + [last])[i].now) {
      var i :| 0 <= i < |calls| && IssuedAt(s, e.leaf, calls[i].now);
      assert (calls + [last])[i] == calls[i];
    }
  }

  lemma {:induction false} AfterTraced(s: Settings, calls: seq<Call>)
    requires s.leafValidity > 0 && s.cacheSize > 0
    ensures Traced(s, After(s, [], calls), calls)
  {
    if calls != [] {
      var front, last := calls[..|calls|-1], calls[|calls|-1];
      var cache := After(s, [], front);
      AfterTraced(s, front);
      AfterSound(s, [], front);
      TraceGrows(s, cache, front, last);
      assert front + [last] == calls;
      forall e | e in After(s, [], calls)
        ensures exists i :: 0 <= i < |calls| && IssuedAt(s, e.leaf, calls[i].now)
      {
        if e !in cache {
          NewEntryIssuedNow(s, cache, last, e);
          assert IssuedAt(s, e.leaf, calls[|calls|-1].now);
        }
      }
    }
  }

  lemma NewEntryIssuedNow(s: Settings, cache: seq<CacheEntry>, call: Call, e: CacheEntry)
    requires Sound(s, cache) && s.cacheSize > 0
    requires e in Serve(s, cache, call).cache && e !in cache
    ensures IssuedAt(s, e.leaf, call.now)
  {
    var host := Admit(s, call).value;
    var next := ServeAdmitted(s, cache, host, call.now, call.signing);
    DroppedHosts(cache, host);
    ServedShape(s, cache, host, call.now, call.signing);
    assert e == next.cache[0] && next.result.Ok? by {
      assert e in [next.cache[0]] + Dropped(cache, host);
    }
    FrontEntry(s, cache, host, call.now, call.signing);
  }

  /** The entry in front after a success was cached before or holds a leaf signed now. */
  lemma FrontEntry(s: Settings, cache: seq<CacheEntry>, host: string, now: Time, signing: Signing)
    requires s.cacheSize > 0
    ensures var next := ServeAdmitted(s, cache, host, now, signing);
            next.result.Ok? ==>
              && next.cache != []
              && (next.cache[0] in cache
                  || next.cache[0] == CacheEntry(host, NewLeaf(s, host, now, next.cache[0].leaf.serial)))
  {
  }

  // ---------------------------------------------------------------- the leaf's lifetime

  /** A leaf lives at least 300 s, covers its own start, and ends no later than either issuer. */
  lemma LeafLifetime(s: Settings, leaf: Leaf, t: Time)
    requires Loaded(s) && IssuedAt(s, leaf, t)
    ensures leaf.notAfter - leaf.notBefore >= 300 * SECOND
    ensures leaf.notAfter <= ExpiresAt(s) <= s.root.notAfter && ExpiresAt(s) <= s.intermediate.notAfter
    ensures leaf.notBefore <= t - BACKDATE < leaf.notBefore + SECOND
  {
    var end := LeafEnd(s, t);
    assert t < end <= ExpiresAt(s);
    WholeSecondMonotone(t, end);
    BackdateWhole(t);
  }

  /**
   A leaf starts at the last whole second not after five minutes before its issue, and ends at the last
   whole second after none of: its issue plus the leaf validity, the root's end, the intermediate's end.
   */
  lemma LeafEnds(s: Settings, leaf: Leaf, t: Time)
    requires IssuedAt(s, leaf, t)
    ensures leaf.notBefore % 1_000_000_000 == 0 && leaf.notAfter % 1_000_000_000 == 0
    ensures leaf.notBefore <= t - 300_000_000_000 < leaf.notBefore + 1_000_000_000
    ensures forall x: int :: x % 1_000_000_000 == 0 ==>
              (x <= leaf.notAfter
               <==> x <= t + s.leafValidity && x <= s.root.notAfter && x <= s.intermediate.notAfter)
  {
    BackdateWhole(t);
    LastWholeSecond(t - BACKDATE);
    LastWholeSecond(LeafEnd(s, t));
  }

  lemma LastWholeSecond(t: Time)
    ensures WholeSecond(t) % 1_000_000_000 == 0 && WholeSecond(t) <= t < WholeSecond(t) + 1_000_000_000
    ensures forall x: int :: x % 1_000_000_000 == 0 ==> (x <= WholeSecond(t) <==> x <= t)
  {
    forall x: int | x % 1_000_000_000 == 0 ensures x <= WholeSecond(t) <==> x <= t {
      assert x == 1_000_000_000 * (x / 1_000_000_000);
      assert t == 1_000_000_000 * (t / 1_000_000_000) + t % 1_000_000_000;
    }
  }

  /** When an issuer is ready, which window it misses when it is not, and until when it stays ready. */
  lemma ReadyExactly(s: Settings, now: Time)
    ensures ReadyAt(s, now) == None
            <==> s.root.notBefore <= now && s.intermediate.notBefore <= now && now < ExpiresAt(s)
    ensures ReadyAt(s, now) == Some(RootNotValid(NotYetValid)) <==> now < s.root.notBefore
    ensures ReadyAt(s, now) == Some(RootNotValid(Expired)) <==> s.root.notBefore <= now && s.root.notAfter <= now
    ensures ReadyAt(s, now) == Some(IntermediateNotValid(NotYetValid))
            <==> s.root.notBefore <= now < s.root.notAfter && now < s.intermediate.notBefore
    ensures ExpiresAt(s) <= s.root.notAfter && ExpiresAt(s) <= s.intermediate.notAfter
    ensures ExpiresAt(s) == s.root.notAfter || ExpiresAt(s) == s.intermediate.notAfter
  {
  }

  /** How issuing fails behind the readiness check: with the error of the step that fails. */
  lemma WhyNoLeaf(s: Settings, host: string, now: Time, signing: Signing)
    requires s.leafValidity > 0 && ReadyAt(s, now) == None
    ensures Issue(s, host, now, signing) == Err(NoSerial) <==> signing.SerialFails?
    ensures Issue(s, host, now, signing) == Err(NoKey) <==> signing.KeyFails?
    ensures Issue(s, host, now, signing) == Err(NoKeyId) <==> signing.KeyIdFails?
    ensures Issue(s, host, now, signing) == Err(NoSignature) <==> signing.SignFails?
    ensures Issue(s, host, now, signing) == Err(NotParsed) <==> signing.ParseFails?
    ensures Issue(s, host, now, signing).Ok? <==> signing.Signs?
    ensures Issue(s, host, now, signing).Ok? ==>
              && Issue(s, host, now, signing).value.host == host
              && Issue(s, host, now, signing).value.serial == signing.serial
              && IssuedAt(s, Issue(s, host, now, signing).value, now)
  {
    NeverExpiredWhenReady(s, host, now, signing);
  }

  /** Issuing itself refuses, once a serial number is drawn, exactly when no time would be left. */
  lemma ExpiredExactly(s: Settings, host: string, now: Time, signing: Signing)
    ensures Issue(s, host, now, signing) == Err(IssuerExpired)
            <==> && !signing.SerialFails?
                 && (s.leafValidity <= 0 || s.root.notAfter <= now || s.intermediate.notAfter <= now)
  {
  }

  /** Which of its checks a call fails, in their order. */
  lemma WhyRefused(s: Settings, call: Call)
    ensures Admit(s, call) == Err(NoHello) <==> call.hello == None
    ensures call.hello.Some? ==>
              var name := PkiHosts.NormalizeHost(call.hello.value);
              && (name.Err? ==> Admit(s, call) == Err(InvalidSni(name.error)))
              && (name.Ok? && !Allows(s, name.value) ==> Admit(s, call) == Err(NotConfigured(name.value)))
              && (name.Ok? && Allows(s, name.value) && ReadyAt(s, call.now).Some? ==>
                    Admit(s, call) == Err(ReadyAt(s, call.now).value))
              && (name.Ok? && Allows(s, name.value) && ReadyAt(s, call.now) == None ==>
                    Admit(s, call) == Ok(name.value))
  {
  }

  lemma BackdateWhole(t: Time)
    ensures WholeSecond(t - BACKDATE) == WholeSecond(t) - BACKDATE
    ensures WholeSecond(t) <= t < WholeSecond(t) + SECOND
  {
    assert BACKDATE == 300 * SECOND;
    assert t == SECOND * (t / SECOND) + t % SECOND;
    assert t - BACKDATE == SECOND * (t / SECOND - 300) + t % SECOND;
  }

  lemma WholeSecondMonotone(a: Time, b: Time)
    requires a <= b
    ensures WholeSecond(a) <= WholeSecond(b) <= b
    ensures a < WholeSecond(a) + SECOND
  {
    assert a == SECOND * (a / SECOND) + a % SECOND && b == SECOND * (b / SECOND) + b % SECOND;
  }

  /** A leaf served from the cache has at least 100 s left. */
  lemma HitHasTimeLeft(s: Settings, leaf: Leaf, t: Time, now: Time)
    requires Loaded(s) && IssuedAt(s, leaf, t) && !NeedsRenewal(leaf, now)
    ensures leaf.notAfter - now >= 100 * SECOND
  {
    LeafLifetime(s, leaf, t);
  }

  /** Which instants a leaf served from the cache covers on the left: the exact clock condition. */
  lemma HitCovers(s: Settings, leaf: Leaf, t: Time, now: Time)
    requires Loaded(s) && IssuedAt(s, leaf, t) && !NeedsRenewal(leaf, now)
    ensures leaf.notBefore <= now < leaf.notAfter <==> now >= WholeSecond(t - BACKDATE)
    ensures now >= t - BACKDATE ==> leaf.notBefore <= now
  {
    HitHasTimeLeft(s, leaf, t, now);
    LeafLifetime(s, leaf, t);
  }

  /** With a leaf validity of a second or more, a leaf still has time left when it is issued. */
  lemma FreshLeafCovers(s: Settings, leaf: Leaf, t: Time)
    requires Loaded(s) && IssuedAt(s, leaf, t) && s.leafValidity >= SECOND
    ensures leaf.notBefore <= t < leaf.notAfter
  {
    LeafLifetime(s, leaf, t);
    WholeSecondMonotone(t + s.leafValidity, t + s.leafValidity);
  }

  /** A whole second of validity is exactly what it takes: with less, some ready instant yields a leaf born expired. */
  lemma FreshLeavesCoverExactly(s: Settings, ready: Time)
    requires Loaded(s) && ReadyAt(s, ready) == None
    ensures s.leafValidity >= SECOND
            <==> forall t, serial, host :: ReadyAt(s, t) == None ==>
                   ValidLeafAt(NewLeaf(s, host, t, serial), t)
  {
    if s.leafValidity >= SECOND {
      forall t, serial, host | ReadyAt(s, t) == None ensures ValidLeafAt(NewLeaf(s, host, t, serial), t) {
        FreshLeafCovers(s, NewLeaf(s, host, t, serial), t);
      }
    } else {
      var t := BornExpired(s, ready);
      assert !ValidLeafAt(NewLeaf(s, "", t, 0), t);
    }
  }

  /** With less than a second of validity, the leaf issued at the start of the ready window has no time left. */
  lemma BornExpired(s: Settings, ready: Time) returns (t: Time)
    requires Loaded(s) && ReadyAt(s, ready) == None && s.leafValidity < SECOND
    ensures ReadyAt(s, t) == None && WholeSecond(LeafEnd(s, t)) <= t
  {
    t := if s.root.notBefore <= s.intermediate.notBefore then s.intermediate.notBefore else s.root.notBefore;
    WholeSecondWithin(t, s.leafValidity);
    WholeSecondMonotone(LeafEnd(s, t), t + s.leafValidity);
  }

  lemma WholeSecondWithin(t: Time, d: Duration)
    requires WholeSecond(t) == t && 0 <= d < SECOND
    ensures WholeSecond(t + d) == t
  {
    assert t % SECOND == 0 && (t + d) % SECOND == d;
  }

  predicate ValidLeafAt(leaf: Leaf, now: Time) {
    leaf.notBefore <= now < leaf.notAfter
  }

  /** What a client relies on: the name asked for, cut off at the issuers, and valid now. */
  predicate Good(s: Settings, leaf: Leaf, call: Call) {
    && call.hello.Some?
    && PkiHosts.NormalizeHost(call.hello.value) == Ok(leaf.host)
    && Allows(s, leaf.host)
    && leaf.notAfter <= s.root.notAfter
    && leaf.notAfter <= s.intermediate.notAfter
    && ValidLeafAt(leaf, call.now)
  }

  /**
   When exactly a leaf returned on a run is good, on any clock and whatever mix of issues, hits and
   renewals led there: when the time is not before the start of the leaf, the whole second of its issue
   less the backdate. Its name, its ends and its time left are right in any case.
   */
  lemma AnswersAreGoodExactly(s: Settings, calls: seq<Call>) returns (i: nat)
    requires Loaded(s) && s.leafValidity >= SECOND
    requires calls != [] && Answer(s, [], calls).Ok?
    ensures i < |calls| && IssuedAt(s, Answer(s, [], calls).value, calls[i].now)
    ensures Good(s, Answer(s, [], calls).value, calls[|calls|-1])
            <==> calls[|calls|-1].now >= WholeSecond(calls[i].now - BACKDATE)
  {
    var last, leaf := calls[|calls|-1], Answer(s, [], calls).value;
    i := AnswerSource(s, calls);
    if i < |calls| - 1 {
      HitIsGoodExactly(s, leaf, calls[i].now, last);
    } else {
      FreshIsGood(s, leaf, last);
      BackdateWhole(last.now);
    }
  }

  /**
   On a clock that never falls back by more than the backdate, every leaf returned names exactly the
   normalised SNI, is cut off at both issuers, and contains the current time.
   */
  lemma AnswersAreGood(s: Settings, calls: seq<Call>)
    requires Loaded(s) && s.leafValidity >= SECOND && Steady(calls)
    requires calls != [] && Answer(s, [], calls).Ok?
    ensures Good(s, Answer(s, [], calls).value, calls[|calls|-1])
  {
    var i := AnswersAreGoodExactly(s, calls);
    BackdateWhole(calls[i].now);
  }

  /** The call that issued the leaf a run returns last: that last call, or an earlier one and the leaf is not due. */
  lemma AnswerSource(s: Settings, calls: seq<Call>) returns (i: nat)
    requires s.leafValidity > 0 && s.cacheSize > 0
    requires calls != [] && Answer(s, [], calls).Ok?
    ensures var last, leaf := calls[|calls|-1], Answer(s, [], calls).value;
            && i < |calls|
            && IssuedAt(s, leaf, calls[i].now)
            && Admit(s, last) == Ok(leaf.host)
            && (i < |calls| - 1 ==> !NeedsRenewal(leaf, last.now))
  {
    var front, last, leaf := calls[..|calls|-1], calls[|calls|-1], Answer(s, [], calls).value;
    var cache := After(s, [], front);
    AfterSound(s, [], front);
    ServedLeaf(s, cache, last);
    if IssuedAt(s, leaf, last.now) {
      i := |calls| - 1;
    } else {
      AfterTraced(s, front);
      var e :| e in cache && e.leaf == leaf && !NeedsRenewal(leaf, last.now);
      i :| 0 <= i < |front| && IssuedAt(s, e.leaf, front[i].now);
      assert calls[i].now == front[i].now;
    }
  }

  /** A served leaf is a cached one that is not due, or one issued now. */
  lemma ServedLeaf(s: Settings, cache: seq<CacheEntry>, call: Call)
    requires Sound(s, cache) && s.cacheSize > 0 && Serve(s, cache, call).result.Ok?
    ensures var leaf := Serve(s, cache, call).result.value;
            && Admit(s, call) == Ok(leaf.host)
            && ( || IssuedAt(s, leaf, call.now)
                 || exists e :: e in cache && e.leaf == leaf && !NeedsRenewal(leaf, call.now))
  {
    var host := Admit(s, call).value;
    ServedShape(s, cache, host, call.now, call.signing);
    var k := IndexOf(cache, host);
    if k < |cache| && !NeedsRenewal(cache[k].leaf, call.now) {
      assert cache[k] in cache;
    }
  }

  lemma HitIsGoodExactly(s: Settings, leaf: Leaf, t: Time, call: Call)
    requires Loaded(s) && IssuedAt(s, leaf, t) && Admit(s, call) == Ok(leaf.host) && !NeedsRenewal(leaf, call.now)
    ensures Good(s, leaf, call) <==> call.now >= WholeSecond(t - BACKDATE)
  {
    HitCovers(s, leaf, t, call.now);
    LeafLifetime(s, leaf, t);
  }

  lemma FreshIsGood(s: Settings, leaf: Leaf, call: Call)
    requires Loaded(s) && s.leafValidity >= SECOND && IssuedAt(s, leaf, call.now) && Admit(s, call) == Ok(leaf.host)
    ensures Good(s, leaf, call)
  {
  }

  /** The issuer without its cache: every admitted call signs a new leaf. */
  function CacheFree(s: Settings, call: Call): Result<Leaf, Error> {
    match Admit(s, call)
    case Err(e) => Err(e)
    case Ok(host) => Issue(s, host, call.now, call.signing)
  }

  /**
   The caching issuer refines the cache-free one: it fails only with the error the cache-free issuer
   gives, succeeds whenever that one does, and then with a leaf for the same host.
   */
  lemma CachingRefinesCacheFree(s: Settings, calls: seq<Call>)
    requires s.cacheSize > 0 && calls != []
    ensures var cached, plain := Answer(s, [], calls), CacheFree(s, calls[|calls|-1]);
            && (cached.Err? ==> cached == plain)
            && (plain.Ok? ==> cached.Ok? && cached.value.host == plain.value.host)
  {
    var front, last := calls[..|calls|-1], calls[|calls|-1];
    AfterSound(s, [], front);
    if Admit(s, last).Ok? {
      ServedShape(s, After(s, [], front), Admit(s, last).value, last.now, last.signing);
    }
  }

  // ---------------------------------------------------------------- renewal

  /** Once a leaf is due for renewal it stays due. */
  lemma RenewalMonotone(leaf: Leaf, now: Time, later: Time)
    requires now <= later && NeedsRenewal(leaf, now)
    ensures NeedsRenewal(leaf, later)
  {
  }

  /** A leaf's lifetime as the 64-bit duration of the source, which saturates at some 292 years. */
  function Lifetime(leaf: Leaf): Duration {
    var life := leaf.notAfter - leaf.notBefore;
    if life > 9_223_372_036_854_775_807 then 9_223_372_036_854_775_807
    else if life < -9_223_372_036_854_775_808 then -9_223_372_036_854_775_808
    else life
  }

  /** Less than a third of the lifetime is left, in whole nanoseconds. */
  predicate ThirdGone(leaf: Leaf, now: Time) {
    if Lifetime(leaf) >= 0 then 3 * (leaf.notAfter - now) + 3 <= Lifetime(leaf)
    else 3 * (leaf.notAfter - now) < Lifetime(leaf)
  }

  /** Renewal is due exactly when less than a third of the lifetime is left, at any instant and for any leaf. */
  lemma DueExactly(leaf: Leaf, now: Time)
    ensures NeedsRenewal(leaf, now) <==> ThirdGone(leaf, now)
  {
    var life := Lifetime(leaf);
    assert Sub(leaf.notAfter, leaf.notBefore) == life;
    if life >= 0 {
      assert Third(life) == life / 3;
    } else {
      assert Third(life) == -(-life / 3);
    }
  }

  /**
   A leaf just issued serves the next request at the same instant exactly when at least 150 s remain,
   up to half of the instant's fraction of a second.
   */
  lemma FreshLeafIsHit(s: Settings, leaf: Leaf, t: Time)
    requires Loaded(s) && IssuedAt(s, leaf, t)
    ensures !NeedsRenewal(leaf, t) <==> 2 * (leaf.notAfter - t) >= BACKDATE + t % SECOND - 2
  {
    assert leaf.notAfter >= leaf.notBefore by { LeafLifetime(s, leaf, t); }
    assert leaf.notBefore == t - t % SECOND - BACKDATE;
    DueExactly(leaf, t);
  }

  /**
   What a cached host is answered: its own leaf as long as a third of the lifetime is left, and from then
   on what issuing gives.
   */
  lemma CachedAnswer(s: Settings, calls: seq<Call>, e: CacheEntry)
    requires s.cacheSize > 0 && calls != []
    requires e in After(s, [], calls[..|calls|-1]) && Admit(s, calls[|calls|-1]) == Ok(e.host)
    ensures var last := calls[|calls|-1];
            Answer(s, [], calls)
            == if ThirdGone(e.leaf, last.now) then Issue(s, e.host, last.now, last.signing) else Ok(e.leaf)
  {
    var front, last := calls[..|calls|-1], calls[|calls|-1];
    var cache := After(s, [], front);
    AfterSound(s, [], front);
    DueExactly(e.leaf, last.now);
    HasHost(cache, e);
    var j :| 0 <= j < |cache| && cache[j] == e;
    OwnEntry(cache, e, IndexOf(cache, e.host));
  }

  /** So with a serial number that is new, the cached leaf itself is the answer exactly until then. */
  lemma CachedAnswerExactly(s: Settings, calls: seq<Call>, e: CacheEntry)
    requires s.cacheSize > 0 && calls != []
    requires e in After(s, [], calls[..|calls|-1]) && Admit(s, calls[|calls|-1]) == Ok(e.host)
    requires calls[|calls|-1].signing != Signs(e.leaf.serial)
    ensures Answer(s, [], calls) == Ok(e.leaf) <==> !ThirdGone(e.leaf, calls[|calls|-1].now)
  {
    CachedAnswer(s, calls, e);
  }

  /** The host is cached after every prefix of the run: it is never evicted, nor dropped by a failed renewal. */
  predicate StaysCached(s: Settings, cache: seq<CacheEntry>, calls: seq<Call>, host: string) {
    && host in Hosts(After(s, cache, calls))
    && (calls != [] ==> StaysCached(s, cache, calls[..|calls|-1], host))
  }

  /** No call of the run finds the leaf due for renewal. */
  predicate NeverDue(s: Settings, leaf: Leaf, calls: seq<Call>) {
    forall c :: c in calls && Admit(s, c) == Ok(leaf.host) ==> !NeedsRenewal(leaf, c.now)
  }

  /** A host has one entry only. */
  lemma OwnEntry(cache: seq<CacheEntry>, e: CacheEntry, k: nat)
    requires Distinct(Hosts(cache)) && e in cache && k < |cache| && cache[k].host == e.host
    ensures cache[k] == e
  {
    var j :| 0 <= j < |cache| && cache[j] == e;
    assert Hosts(cache)[j] == e.host == Hosts(cache)[k];
  }

  lemma HostCached(cache: seq<CacheEntry>, host: string) returns (e: CacheEntry)
    requires host in Hosts(cache)
    ensures e in cache && e.host == host
  {
    var k :| 0 <= k < |cache| && Hosts(cache)[k] == host;
    e := cache[k];
  }

  /** A call for another host leaves the entry as it is, or takes the host out of the cache. */
  lemma OthersKeep(s: Settings, cache: seq<CacheEntry>, e: CacheEntry, x: string, now: Time, signing: Signing)
    requires Sound(s, cache) && s.cacheSize > 0 && e in cache && x != e.host
    requires e.host in Hosts(ServeAdmitted(s, cache, x, now, signing).cache)
    ensures e in ServeAdmitted(s, cache, x, now, signing).cache
  {
    var next := ServeAdmitted(s, cache, x, now, signing);
    ServedShape(s, cache, x, now, signing);
    DroppedHosts(cache, x);
    var kept := HostCached(next.cache, e.host);
    assert kept in Dropped(cache, x) by {
      if next.result.Ok? {
        assert kept in [next.cache[0]] + Dropped(cache, x);
      }
    }
    var j :| 0 <= j < |cache| && cache[j] == kept;
    OwnEntry(cache, e, j);
  }

  /** A call for the entry's own host, when its leaf is not due, returns the leaf and puts the entry in front. */
  lemma OwnHit(s: Settings, cache: seq<CacheEntry>, e: CacheEntry, now: Time, signing: Signing)
    requires Sound(s, cache) && e in cache && !NeedsRenewal(e.leaf, now)
    ensures var next := ServeAdmitted(s, cache, e.host, now, signing);
            next.result == Ok(e.leaf) && next.cache != [] && next.cache[0] == e
  {
    var j :| 0 <= j < |cache| && cache[j] == e;
    var k := IndexOf(cache, e.host);
    assert k <= j;
    OwnEntry(cache, e, k);
  }

  lemma StepKeeps(s: Settings, cache: seq<CacheEntry>, e: CacheEntry, call: Call)
    requires Sound(s, cache) && s.cacheSize > 0 && e in cache
    requires Admit(s, call) == Ok(e.host) ==> !NeedsRenewal(e.leaf, call.now)
    requires e.host in Hosts(Serve(s, cache, call).cache)
    ensures e in Serve(s, cache, call).cache
    ensures Admit(s, call) == Ok(e.host) ==> Serve(s, cache, call).result == Ok(e.leaf)
  {
    match Admit(s, call)
    case Err(_) =>
    case Ok(x) =>
      if x == e.host {
        OwnHit(s, cache, e, call.now, call.signing);
      } else {
        OthersKeep(s, cache, e, x, call.now, call.signing);
      }
  }

  /**
   Until its leaf is due for renewal, a host that stays cached keeps getting this very leaf, whatever
   other hosts are asked for in between and however their requests end.
   */
  lemma {:induction false} LeafStays(s: Settings, cache: seq<CacheEntry>, e: CacheEntry, calls: seq<Call>)
    requires Sound(s, cache) && s.cacheSize > 0 && e in cache
    requires NeverDue(s, e.leaf, calls) && StaysCached(s, cache, calls, e.host)
    ensures e in After(s, cache, calls)
    ensures calls != [] && Admit(s, calls[|calls|-1]) == Ok(e.host) ==> Answer(s, cache, calls) == Ok(e.leaf)
  {
    if calls != [] {
      var front, last := calls[..|calls|-1], calls[|calls|-1];
      assert NeverDue(s, e.leaf, front) && last in calls;
      LeafStays(s, cache, e, front);
      AfterSound(s, cache, front);
      assert e.host == e.leaf.host;
      StepKeeps(s, After(s, cache, front), e, last);
    }
  }

  /** On a monotone clock it is enough that the last call comes before the leaf is due. */
  lemma LeafStaysUntilDue(s: Settings, cache: seq<CacheEntry>, e: CacheEntry, calls: seq<Call>)
    requires Sound(s, cache) && s.cacheSize > 0 && e in cache && calls != []
    requires forall i, j :: 0 <= i <= j < |calls| ==> calls[i].now <= calls[j].now
    requires !NeedsRenewal(e.leaf, calls[|calls|-1].now)
    requires StaysCached(s, cache, calls[..|calls|-1], e.host)
    requires Admit(s, calls[|calls|-1]) == Ok(e.host)
    ensures Answer(s, cache, calls) == Ok(e.leaf)
  {
    var front, last := calls[..|calls|-1], calls[|calls|-1];
    forall c | c in front ensures !NeedsRenewal(e.leaf, c.now) {
      var i :| 0 <= i < |front| && front[i] == c;
      assert calls[i] == c;
      if NeedsRenewal(e.leaf, c.now) {
        RenewalMonotone(e.leaf, c.now, last.now);
      }
    }
    LeafStays(s, cache, e, front);
    AfterSound(s, cache, front);
    OwnHit(s, After(s, cache, front), e, last.now, last.signing);
  }

  lemma LosesOwn(s: Settings, cache: seq<CacheEntry>, e: CacheEntry, now: Time, signing: Signing)
    requires Sound(s, cache) && s.cacheSize > 0 && s.leafValidity > 0 && ReadyAt(s, now) == None && e in cache
    ensures e.host !in Hosts(ServeAdmitted(s, cache, e.host, now, signing).cache)
            <==> NeedsRenewal(e.leaf, now) && !signing.Signs?
  {
    var j :| 0 <= j < |cache| && cache[j] == e;
    OwnEntry(cache, e, IndexOf(cache, e.host));
    SucceedsExactly(s, cache, e.host, now, signing);
    UsedByServing(s, cache, e.host, now, signing);
    var next := ServeAdmitted(s, cache, e.host, now, signing);
    if next.result.Ok? {
      assert Hosts(next.cache)[0] == e.host;
    }
  }

  lemma LosesOther(
      s: Settings, cache: seq<CacheEntry>, e: CacheEntry, x: string, now: Time, signing: Signing)
    requires Sound(s, cache) && s.cacheSize > 0 && s.leafValidity > 0 && ReadyAt(s, now) == None && e in cache
    requires x != e.host
    ensures e.host !in Hosts(ServeAdmitted(s, cache, x, now, signing).cache)
            <==> && signing.Signs? && x !in Hosts(cache)
                 && |cache| == s.cacheSize && cache[|cache|-1].host == e.host
  {
    HasHost(cache, e);
    if Hit(cache, x, now) {
      HitHasHost(cache, x, now);
    }
    SucceedsExactly(s, cache, x, now, signing);
    UsedByServing(s, cache, x, now, signing);
    LosesUsed(Hosts(cache), s.cacheSize, Attempt(x, Hit(cache, x, now) || signing.Signs?), e.host);
  }

  lemma HitHasHost(cache: seq<CacheEntry>, x: string, now: Time)
    requires Hit(cache, x, now)
    ensures x in Hosts(cache)
  {
    assert Hosts(cache)[IndexOf(cache, x)] == x;
  }

  lemma LosesUsed(hosts: seq<string>, size: nat, a: Attempt, h: string)
    requires Distinct(hosts) && |hosts| <= size && h in hosts && a.host != h
    ensures h !in Used(size, hosts, a)
            <==> a.ok && a.host !in hosts && |hosts| == size && hosts[|hosts|-1] == h
  {
    CutOff(hosts, a.host, h, size);
  }

  lemma HasHost(cache: seq<CacheEntry>, e: CacheEntry)
    requires e in cache
    ensures e.host in Hosts(cache)
  {
    var j :| 0 <= j < |cache| && cache[j] == e;
    assert Hosts(cache)[j] == e.host;
  }

  /** Who is cut off when a host is put in front of a list in bounds. */
  lemma CutOff(hosts: seq<string>, x: string, h: string, size: nat)
    requires Distinct(hosts) && |hosts| <= size && h in hosts && x != h
    ensures h in Without(hosts, x)
    ensures var rest := Without(hosts, x);
            h !in ([x] + rest)[..Least(size, 1 + |rest|)]
            <==> x !in hosts && |hosts| == size && hosts[|hosts|-1] == h
  {
    var rest := Without(hosts, x);
    WithoutLength(hosts, x);
    if |rest| < size {
      assert ([x] + rest)[..Least(size, 1 + |rest|)] == [x] + rest;
    } else {
      WithoutAbsent(hosts, x);
      assert ([x] + rest)[..size] == [x] + rest[..size - 1];
      assert rest == rest[..size - 1] + [rest[size - 1]];
    }
  }

  /** The call gives a leaf to a host that is not cached, the cache is full, and `host` is last in it. */
  predicate Evicts(s: Settings, cache: seq<CacheEntry>, host: string, call: Call) {
    && Admit(s, call).Ok? && Admit(s, call).value != host && Admit(s, call).value !in Hosts(cache)
    && call.signing.Signs?
    && cache != [] && |cache| == s.cacheSize && cache[|cache|-1].host == host
  }

  /** A call takes a host out of the cache exactly when it evicts it, or fails to renew its leaf that is due. */
  lemma LosesHostExactly(s: Settings, cache: seq<CacheEntry>, e: CacheEntry, call: Call)
    requires Sound(s, cache) && s.cacheSize > 0 && s.leafValidity > 0 && e in cache
    ensures e.host !in Hosts(Serve(s, cache, call).cache)
            <==> || Evicts(s, cache, e.host, call)
                 || (Admit(s, call) == Ok(e.host) && NeedsRenewal(e.leaf, call.now) && !call.signing.Signs?)
  {
    HasHost(cache, e);
    if Admit(s, call).Ok? {
      var x := Admit(s, call).value;
      if x == e.host {
        LosesOwn(s, cache, e, call.now, call.signing);
      } else {
        LosesOther(s, cache, e, x, call.now, call.signing);
      }
    }
  }

  /** No call of the run evicts the host from the cache it finds. */
  predicate NeverEvicted(s: Settings, cache: seq<CacheEntry>, calls: seq<Call>, host: string) {
    calls != [] ==>
      var front := calls[..|calls|-1];
      !Evicts(s, After(s, cache, front), host, calls[|calls|-1]) && NeverEvicted(s, cache, front, host)
  }

  /** Until its leaf is due, a cached host stays cached over a run exactly when no call evicts it. */
  lemma {:induction false} StaysCachedExactly(s: Settings, cache: seq<CacheEntry>, e: CacheEntry, calls: seq<Call>)
    requires Sound(s, cache) && s.cacheSize > 0 && s.leafValidity > 0 && e in cache && NeverDue(s, e.leaf, calls)
    ensures StaysCached(s, cache, calls, e.host) <==> NeverEvicted(s, cache, calls, e.host)
  {
    if calls == [] {
      HasHost(cache, e);
    } else {
      var front := calls[..|calls|-1];
      assert NeverDue(s, e.leaf, front);
      StaysCachedExactly(s, cache, e, front);
      if StaysCached(s, cache, front, e.host) {
        LastKeepsHost(s, cache, e, calls);
      }
    }
  }

  lemma LastKeepsHost(s: Settings, cache: seq<CacheEntry>, e: CacheEntry, calls: seq<Call>)
    requires Sound(s, cache) && s.cacheSize > 0 && s.leafValidity > 0 && e in cache && NeverDue(s, e.leaf, calls)
    requires calls != [] && StaysCached(s, cache, calls[..|calls|-1], e.host)
    ensures e.host in Hosts(After(s, cache, calls))
            <==> !Evicts(s, After(s, cache, calls[..|calls|-1]), e.host, calls[|calls|-1])
  {
    var front, last := calls[..|calls|-1], calls[|calls|-1];
    assert NeverDue(s, e.leaf, front) && last in calls;
    LeafStays(s, cache, e, front);
    AfterSound(s, cache, front);
    assert e.host == e.leaf.host;
    LosesHostExactly(s, After(s, cache, front), e, last);
  }

  /** The admitted hosts other than `host` among the calls. */
  function Others(s: Settings, calls: seq<Call>, host: string): set<string> {
    set h | h in Requested(s, calls) && h != host
  }

  /** The entry is in the cache, and every entry before it is for one of the given hosts. */
  ghost predicate Behind(cache: seq<CacheEntry>, e: CacheEntry, others: set<string>) {
    BehindAt(cache, e, others, IndexOf(cache, e.host))
  }

  ghost predicate BehindAt(cache: seq<CacheEntry>, e: CacheEntry, others: set<string>, k: nat) {
    && k < |cache|
    && cache[k] == e
    && forall i :: 0 <= i < k ==> cache[i].host in others && cache[i].host != e.host
  }

  lemma BehindAtIsBehind(cache: seq<CacheEntry>, e: CacheEntry, others: set<string>, k: nat)
    requires BehindAt(cache, e, others, k)
    ensures IndexOf(cache, e.host) == k && Behind(cache, e, others)
  {
  }

  lemma BehindAfterDrop(cache: seq<CacheEntry>, e: CacheEntry, others: set<string>, x: string) returns (k: nat)
    requires Behind(cache, e, others) && x != e.host
    ensures BehindAt(Dropped(cache, x), e, others, k)
    ensures k == IndexOf(cache, e.host) - if IndexOf(cache, x) < IndexOf(cache, e.host) then 1 else 0
  {
    var j, at, rest := IndexOf(cache, x), IndexOf(cache, e.host), Dropped(cache, x);
    k := if j < at then at - 1 else at;
    if j < |cache| {
      assert rest[k] == cache[if k < j then k else k + 1];
      forall i | 0 <= i < k ensures rest[i].host in others && rest[i].host != e.host {
        assert rest[i] == cache[if i < j then i else i + 1];
      }
    }
  }

  lemma BehindPushed(
      rest: seq<CacheEntry>, e: CacheEntry, others: set<string>, k: nat, first: CacheEntry, size: nat)
    requires BehindAt(rest, e, others, k) && first.host != e.host && k + 1 < size
    ensures Behind(([first] + rest)[..Least(size, 1 + |rest|)], e, others + {first.host})
  {
    var next := ([first] + rest)[..Least(size, 1 + |rest|)];
    assert forall i :: 0 < i < |next| ==> next[i] == rest[i-1];
    BehindAtIsBehind(next, e, others + {first.host}, k + 1);
  }

  lemma BehindStep(
      s: Settings, cache: seq<CacheEntry>, e: CacheEntry, others: set<string>, x: string, now: Time, signing: Signing)
    requires Sound(s, cache) && s.cacheSize > 0 && x != e.host
    requires Behind(cache, e, others) && |others + {x}| < s.cacheSize
    ensures Behind(ServeAdmitted(s, cache, x, now, signing).cache, e, others + {x})
  {
    ServedShape(s, cache, x, now, signing);
    var next := ServeAdmitted(s, cache, x, now, signing);
    if next.result.Err? {
      BehindDropped(cache, e, others, x);
    } else {
      BehindInserted(s, cache, e, others, next.cache[0]);
    }
  }

  lemma BehindDropped(cache: seq<CacheEntry>, e: CacheEntry, others: set<string>, x: string)
    requires Behind(cache, e, others) && x != e.host
    ensures Behind(Dropped(cache, x), e, others + {x})
  {
    var k := BehindAfterDrop(cache, e, others, x);
    BehindAtIsBehind(Dropped(cache, x), e, others + {x}, k);
  }

  lemma BehindInserted(s: Settings, cache: seq<CacheEntry>, e: CacheEntry, others: set<string>, first: CacheEntry)
    requires Sound(s, cache) && first.host != e.host
    requires Behind(cache, e, others) && |others + {first.host}| < s.cacheSize
    ensures var rest := Dropped(cache, first.host);
            Behind(([first] + rest)[..Least(s.cacheSize, 1 + |rest|)], e, others + {first.host})
  {
    var k := BehindAfterDrop(cache, e, others, first.host);
    assert k + 1 < s.cacheSize by {
      PositionFits(s, cache, e, others, first.host);
    }
    BehindPushed(Dropped(cache, first.host), e, others, k, first, s.cacheSize);
  }

  /** Asking for the entry's own host before it is due returns its leaf and moves it to the front. */
  lemma HitServes(s: Settings, cache: seq<CacheEntry>, e: CacheEntry, others: set<string>, call: Call)
    requires Behind(cache, e, others) && Admit(s, call) == Ok(e.host) && !NeedsRenewal(e.leaf, call.now)
    ensures Serve(s, cache, call).result == Ok(e.leaf)
    ensures Behind(Serve(s, cache, call).cache, e, others)
  {
  }

  /** Fewer hosts than the cache has places stand in front of the entry. */
  lemma PositionFits(s: Settings, cache: seq<CacheEntry>, e: CacheEntry, others: set<string>, x: string)
    requires Sound(s, cache) && Behind(cache, e, others) && |others + {x}| < s.cacheSize && x != e.host
    ensures IndexOf(cache, e.host) + (if IndexOf(cache, x) < IndexOf(cache, e.host) then 0 else 1) < s.cacheSize
  {
    var k := IndexOf(cache, e.host);
    var front := Hosts(cache)[..k];
    assert forall i :: 0 <= i < k ==> Hosts(cache)[i] == cache[i].host;
    if IndexOf(cache, x) < k {
      DistinctFits(front, others + {x});
    } else {
      assert x !in front;
      DistinctFits(front + [x], others + {x});
    }
  }

  /** While fewer than `cacheSize` other hosts are asked for, the entry in front stays within the cache. */
  lemma {:induction false} FewOthersStandBefore(s: Settings, cache: seq<CacheEntry>, e: CacheEntry, calls: seq<Call>)
    requires Sound(s, cache) && s.cacheSize > 0 && cache != [] && cache[0] == e
    requires NeverDue(s, e.leaf, calls) && |Others(s, calls, e.host)| < s.cacheSize
    ensures Behind(After(s, cache, calls), e, Others(s, calls, e.host))
  {
    if calls != [] {
      var front, last := calls[..|calls|-1], calls[|calls|-1];
      var before := After(s, cache, front);
      assert calls == front + [last];
      assert e.host == e.leaf.host;
      OthersGrow(s, calls, e.host);
      FewOthersStandBefore(s, cache, e, front);
      AfterSound(s, cache, front);
      if Admit(s, last).Ok? {
        if Admit(s, last).value != e.host {
          BehindStep(s, before, e, Others(s, front, e.host), Admit(s, last).value, last.now, last.signing);
        } else {
          HitServes(s, before, e, Others(s, front, e.host), last);
        }
      }
    } else {
      BehindAtIsBehind(cache, e, Others(s, calls, e.host), 0);
    }
  }

  /**
   When a host is safe from eviction: from its last request on, for as long as fewer than `cacheSize`
   other hosts are asked for, it stays cached and keeps its leaf until that is due.
   */
  lemma {:induction false} FewOthersKeepCached(s: Settings, cache: seq<CacheEntry>, e: CacheEntry, calls: seq<Call>)
    requires Sound(s, cache) && s.cacheSize > 0 && cache != [] && cache[0] == e
    requires NeverDue(s, e.leaf, calls) && |Others(s, calls, e.host)| < s.cacheSize
    ensures StaysCached(s, cache, calls, e.host)
    ensures calls != [] && Admit(s, calls[|calls|-1]) == Ok(e.host) ==> Answer(s, cache, calls) == Ok(e.leaf)
  {
    FewOthersStandBefore(s, cache, e, calls);
    HasHost(After(s, cache, calls), e);
    if calls != [] {
      var front := calls[..|calls|-1];
      OthersGrow(s, calls, e.host);
      assert NeverDue(s, e.leaf, front);
      FewOthersKeepCached(s, cache, e, front);
    }
    LeafStays(s, cache, e, calls);
  }

  lemma OthersGrow(s: Settings, calls: seq<Call>, host: string)
    requires calls != []
    ensures var front, last := calls[..|calls|-1], calls[|calls|-1];
            && Others(s, calls, host)
               == Others(s, front, host)
                  + (if Admit(s, last).Ok? && Admit(s, last).value != host then {Admit(s, last).value} else {})
            && |Others(s, front, host)| <= |Others(s, calls, host)|
  {
    var front, last := calls[..|calls|-1], calls[|calls|-1];
    var extra := if Admit(s, last).Ok? && Admit(s, last).value != host then {Admit(s, last).value} else {};
    assert Others(s, calls, host) == Others(s, front, host) + extra by {
      RequestedMore(s, calls);
    }
    NoFewer(Others(s, front, host), extra);
  }

  lemma RequestedMore(s: Settings, calls: seq<Call>)
    requires calls != []
    ensures var front, last := calls[..|calls|-1], calls[|calls|-1];
            forall h :: h in Requested(s, calls) <==> h in Requested(s, front) || Admit(s, last) == Ok(h)
  {
  }

  lemma NoFewer<T>(a: set<T>, b: set<T>)
    ensures |a| <= |a + b|
  {
    assert a + b == a + (b - a);
  }
}
