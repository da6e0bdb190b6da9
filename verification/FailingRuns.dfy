/** Concrete runs on which a property fails once its condition is dropped. */
module FailingRuns {
  import opened Results
  import opened GoStrings
  import opened Seqs
  import opened Certificates
  import opened Issuing
  import opened CacheRuns
  import opened LeafRuns
  import PkiHosts

  const START: Time := 400 * SECOND

  const AUTHORITY: Certificate := Certificate(0, 0, true, true, true, 0, 1_000_000 * SECOND, [], [])

  /** An issuer for "a" and "b" under certificates that began 400 s before START. */
  function IssuerOfSize(cacheSize: nat): Settings {
    Settings(AUTHORITY, AUTHORITY, {"a", "b"}, [], 7 * 24 * 3600 * SECOND, cacheSize)
  }

  function Asking(host: string, now: Time, signing: Signing): Call {
    Call(Some(host), now, signing)
  }

  lemma OneLetterIsExact(c: char)
    requires 'a' <= c <= 'z'
    ensures PkiHosts.NormalizeHost([c]) == Ok([c])
  {
    SplitWhole([c], '.');
    assert PkiHosts.Exact([c]);
    PkiHosts.ExactIsPlain([c]);
  }

  lemma Admits(cacheSize: nat, c: char, now: Time, signing: Signing)
    requires c == 'a' || c == 'b'
    requires 0 <= now < 1_000_000 * SECOND
    ensures Admit(IssuerOfSize(cacheSize), Asking([c], now, signing)) == Ok([c])
  {
    OneLetterIsExact(c);
    assert Named(IssuerOfSize(cacheSize), [c]);
    assert ReadyAt(IssuerOfSize(cacheSize), now) == None;
  }

  /** A host that is not cached: its leaf goes in front when signing works, and nothing changes when it fails. */
  lemma MissServes(s: Settings, cache: seq<CacheEntry>, host: string, now: Time, signing: Signing)
    requires Admit(s, Asking(host, now, signing)) == Ok(host) && s.leafValidity > 0
    requires forall i :: 0 <= i < |cache| ==> cache[i].host != host
    ensures signing.Signs? ==>
              Serve(s, cache, Asking(host, now, signing))
              == Served(Evicted([CacheEntry(host, NewLeaf(s, host, now, signing.serial))] + cache, s.cacheSize),
                        Ok(NewLeaf(s, host, now, signing.serial)))
    ensures signing.SignFails? ==> Serve(s, cache, Asking(host, now, signing)) == Served(cache, Err(NoSignature))
  {
    NeverExpiredWhenReady(s, host, now, signing);
    assert IndexOf(cache, host) == |cache|;
  }

  lemma After1(s: Settings, x: Call)
    ensures After(s, [], [x]) == Serve(s, [], x).cache
  {
    assert [x][..0] == [];
    assert After(s, [], [x][..0]) == [];
  }

  lemma After2(s: Settings, x: Call, y: Call)
    ensures After(s, [], [x, y]) == Serve(s, After(s, [], [x]), y).cache
    ensures Answer(s, [], [x, y]) == Serve(s, After(s, [], [x]), y).result
  {
    assert [x, y][..1] == [x];
  }

  lemma After3(s: Settings, x: Call, y: Call, z: Call)
    ensures After(s, [], [x, y, z]) == Serve(s, After(s, [], [x, y]), z).cache
  {
    assert [x, y, z][..2] == [x, y];
    var all := [x, y, z];
    assert all != [] && all[..|all|-1] == [x, y] && all[|all|-1] == z;
  }

  const A_OK: Call := Asking("a", START, Signs(1))
  const B_OK: Call := Asking("b", START, Signs(2))
  const A_FAILS: Call := Asking("a", START, SignFails)

  function StartLeaf(host: string, serial: nat): Leaf {
    Leaf(serial, host, START - BACKDATE, START + 604_800 * SECOND)
  }

  lemma StartLeafIs(cacheSize: nat, host: string, serial: nat)
    ensures NewLeaf(IssuerOfSize(cacheSize), host, START, serial) == StartLeaf(host, serial)
  {
  }

  lemma StartLeafNotDue(host: string, serial: nat, now: Time)
    requires 0 <= now <= START
    ensures !NeedsRenewal(StartLeaf(host, serial), now)
  {
  }

  function StartEntry(host: string, serial: nat): CacheEntry {
    CacheEntry(host, StartLeaf(host, serial))
  }

  lemma FirstCached(cacheSize: nat)
    requires cacheSize > 0
    ensures After(IssuerOfSize(cacheSize), [], [A_OK]) == [StartEntry("a", 1)]
  {
    Admits(cacheSize, 'a', START, Signs(1));
    After1(IssuerOfSize(cacheSize), A_OK);
    MissServes(IssuerOfSize(cacheSize), [], "a", START, Signs(1));
    StartLeafIs(cacheSize, "a", 1);
  }

  lemma SecondCached(cacheSize: nat)
    requires cacheSize > 0
    ensures After(IssuerOfSize(cacheSize), [], [A_OK, B_OK])
            == Evicted([StartEntry("b", 2), StartEntry("a", 1)], cacheSize)
  {
    FirstCached(cacheSize);
    Admits(cacheSize, 'b', START, Signs(2));
    After2(IssuerOfSize(cacheSize), A_OK, B_OK);
    MissServes(IssuerOfSize(cacheSize), [StartEntry("a", 1)], "b", START, Signs(2));
    StartLeafIs(cacheSize, "b", 2);
  }

  lemma OnePlace()
    ensures Hosts(After(IssuerOfSize(1), [], [A_OK, B_OK, A_FAILS])) == ["b"]
  {
    SecondCached(1);
    Admits(1, 'a', START, SignFails);
    After3(IssuerOfSize(1), A_OK, B_OK, A_FAILS);
    MissServes(IssuerOfSize(1), [StartEntry("b", 2)], "a", START, SignFails);
  }

  lemma TwoPlaces()
    ensures Hosts(After(IssuerOfSize(2), [], [A_OK, B_OK, A_FAILS])) == ["a", "b"]
  {
    SecondCached(2);
    Admits(2, 'a', START, SignFails);
    After3(IssuerOfSize(2), A_OK, B_OK, A_FAILS);
    StartLeafNotDue("a", 1, START);
    HitServesSecond(IssuerOfSize(2), StartEntry("b", 2), StartEntry("a", 1), A_FAILS);
  }

  /** Hosts that are cached and not due are served from the cache, whether or not signing works. */
  lemma HitServesSecond(s: Settings, first: CacheEntry, second: CacheEntry, call: Call)
    requires first.host != second.host
    requires Admit(s, call) == Ok(second.host) && !NeedsRenewal(second.leaf, call.now)
    ensures Serve(s, [first, second], call) == Served([second, first], Ok(second.leaf))
  {
    assert [first, second][1..] == [second];
    assert IndexOf([second], second.host) == 0;
    assert IndexOf([first, second], second.host) == 1;
    assert Pop([first, second], 1) == [first];
  }

  lemma HitServesFirst(s: Settings, e: CacheEntry, call: Call)
    requires Admit(s, call) == Ok(e.host) && !NeedsRenewal(e.leaf, call.now)
    ensures Serve(s, [e], call) == Served([e], Ok(e.leaf))
  {
    assert IndexOf([e], e.host) == 0;
    assert Pop([e], 0) == [];
  }

  /**
   A request that fails on the smaller cache only breaks the prefix order: with one place against two,
   requests for "a" and "b" that are signed and one for "a" that is not leave "b" against "a", "b".
   */
  lemma SmallerCacheCanDiffer()
    ensures var calls := [A_OK, B_OK, A_FAILS];
            && Hosts(After(IssuerOfSize(1), [], calls)) == ["b"]
            && Hosts(After(IssuerOfSize(1).(cacheSize := 2), [], calls)) == ["a", "b"]
            && !(["b"] <= ["a", "b"])
  {
    OnePlace();
    TwoPlaces();
    assert IssuerOfSize(1).(cacheSize := 2) == IssuerOfSize(2);
    assert ["b"][0] != ["a", "b"][0];
  }

  const A_EARLIER: Call := Asking("a", START - BACKDATE - 2 * SECOND, Signs(2))

  lemma EarlierAnswer()
    ensures Answer(IssuerOfSize(1), [], [A_OK, A_EARLIER]) == Ok(StartLeaf("a", 1))
  {
    FirstCached(1);
    Admits(1, 'a', A_EARLIER.now, Signs(2));
    After2(IssuerOfSize(1), A_OK, A_EARLIER);
    StartLeafNotDue("a", 1, A_EARLIER.now);
    HitServesFirst(IssuerOfSize(1), StartEntry("a", 1), A_EARLIER);
  }

  lemma IssuerIsLoaded(cacheSize: nat)
    requires cacheSize > 0
    ensures Loaded(IssuerOfSize(cacheSize)) && IssuerOfSize(cacheSize).leafValidity >= SECOND
  {
  }

  lemma NotBegun(s: Settings, leaf: Leaf, call: Call)
    requires call.now < leaf.notBefore
    ensures !Good(s, leaf, call)
  {
  }

  /** A clock that falls back by the backdate and two seconds: the leaf returned has not begun. */
  lemma ClockFallsBack()
    ensures Loaded(IssuerOfSize(1)) && IssuerOfSize(1).leafValidity >= SECOND
    ensures var r := Answer(IssuerOfSize(1), [], [A_OK, A_EARLIER]);
            r.Ok? && A_EARLIER.now < r.value.notBefore && !Good(IssuerOfSize(1), r.value, A_EARLIER)
  {
    IssuerIsLoaded(1);
    EarlierAnswer();
    NotBegun(IssuerOfSize(1), StartLeaf("a", 1), A_EARLIER);
  }
}
