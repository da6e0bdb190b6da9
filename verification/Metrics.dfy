/** The request counters of internal/metrics/metrics.go, and how the three families add up. */
module Metrics {
  import opened Seqs
  import opened Counters

  const RESULTS: set<string> := {"matched", "unknown_host", "unknown_path", "method_not_allowed"}

  datatype Upstream = Upstream(host: string, path: string)

  datatype Setup = Setup(profiles: set<string>, sitesEnabled: bool, sitesMax: int, upstreamsMax: int)

  datatype Books = Books(requests: Vector<string>, sites: Family<string>, upstreams: Family<Upstream>)

  /** One handled request; `site` is the referer's host, or "unknown". */
  datatype Event = Event(profile: string, site: string, host: string, path: string, result: string)

  const OPENING: Books := Books(map[], Family({}, map[]), Family({}, map[]))

  function SiteLimits(setup: Setup): Limits<string> {
    Limits(setup.sitesMax, {"unknown", "other"}, "other")
  }

  function UpstreamLimits(setup: Setup): Limits<Upstream> {
    Limits(setup.upstreamsMax, {}, Upstream("other", "other"))
  }

  function AfterRequest(setup: Setup, b: Books, profile: string, result: string): Books {
    if result !in RESULTS then b
    else b.(requests := Inc(b.requests, Label(if profile in setup.profiles then profile else "unknown", result)))
  }

  function AfterSite(setup: Setup, b: Books, site: string, result: string): Books {
    if !setup.sitesEnabled || result != "matched" then b
    else b.(sites := Observe(SiteLimits(setup), b.sites, site, result))
  }

  function AfterUpstream(setup: Setup, b: Books, host: string, path: string, result: string): Books {
    if result !in RESULTS then b
    else b.(upstreams := Observe(UpstreamLimits(setup), b.upstreams, Upstream(host, path), result))
  }

  function Account(setup: Setup, b: Books, e: Event): Books {
    AfterUpstream(setup, AfterSite(setup, AfterRequest(setup, b, e.profile, e.result), e.site, e.result),
                  e.host, e.path, e.result)
  }

  function AccountAll(setup: Setup, events: seq<Event>): Books {
    if events == [] then OPENING
    else Account(setup, AccountAll(setup, events[..|events|-1]), events[|events|-1])
  }

  /** One more handshake failure for the reason. */
  function Failed(handshake: map<string, nat>, reason: string): map<string, nat> {
    handshake[reason := (if reason in handshake then handshake[reason] else 0) + 1]
  }

  class Metrics {
    const profiles: set<string>
    const sitesEnabled: bool
    const sitesMax: int
    const upstreamsMax: int
    var sites: set<string>
    var upstreams: set<Upstream>
    var requests: Vector<string>
    var siteRequests: Vector<string>
    var upstreamCalls: Vector<Upstream>
    var handshake: map<string, nat>

    constructor (profiles: seq<string>, sitesEnabled: bool, sitesMax: int, upstreamsMax: int)
      ensures Options() == Setup((set p | p in profiles), sitesEnabled, sitesMax, upstreamsMax)
      ensures Current() == OPENING && handshake == map[]
    {
      this.profiles := set p | p in profiles;
      this.sitesEnabled, this.sitesMax, this.upstreamsMax := sitesEnabled, sitesMax, upstreamsMax;
      sites, upstreams := {}, {};
      requests, siteRequests, upstreamCalls, handshake := map[], map[], map[], map[];
    }

    function Options(): Setup {
      Setup(profiles, sitesEnabled, sitesMax, upstreamsMax)
    }

    function Current(): Books
      reads this
    {
      Books(requests, Family(sites, siteRequests), Family(upstreams, upstreamCalls))
    }

    method Request(profile: string, result: string)
      modifies this`requests
      ensures Current() == AfterRequest(Options(), old(Current()), profile, result)
    {
      var name := profile;
      if name !in profiles {
        name := "unknown";
      }
      if result != "matched" && result != "unknown_host" && result != "unknown_path" && result != "method_not_allowed" {
        return;
      }
      requests := Inc(requests, Label(name, result));
    }

    /** `referer` is the host the referer names, or "unknown". */
    method SiteRequest(referer: string, result: string)
      modifies this`sites, this`siteRequests
      ensures Current() == AfterSite(Options(), old(Current()), referer, result)
    {
      if !sitesEnabled || result != "matched" {
        return;
      }
      var site := referer;
      if site != "unknown" && site != "other" && site !in sites {
        if |sites| >= sitesMax {
          site := "other";
        } else {
          sites := sites + {site};
        }
      }
      siteRequests := Inc(siteRequests, Label(site, result));
    }

    method UpstreamRequest(host: string, path: string, result: string)
      modifies this`upstreams, this`upstreamCalls
      ensures Current() == AfterUpstream(Options(), old(Current()), host, path, result)
    {
      if result != "matched" && result != "unknown_host" && result != "unknown_path" && result != "method_not_allowed" {
        return;
      }
      var item := Upstream(host, path);
      if item !in upstreams {
        if |upstreams| >= upstreamsMax {
          item := Upstream("other", "other");
        } else {
          upstreams := upstreams + {item};
        }
      }
      upstreamCalls := Inc(upstreamCalls, Label(item, result));
    }

    method HandshakeFailure(reason: string)
      modifies this`handshake
      ensures handshake == if reason == "unknown_sni" || reason == "other"
                           then Failed(old(handshake), reason)
                           else old(handshake)
    {
      if reason == "unknown_sni" || reason == "other" {
        handshake := Failed(handshake, reason);
      }
    }
  }

  // ---------------------------------------------------------------- reconciliation

  /** For each result the requests over profiles and over upstreams agree, and sites count the matched requests. */
  ghost predicate Reconciled(setup: Setup, b: Books) {
    && (forall r :: r in RESULTS ==> Sum(b.requests, r) == Sum(b.upstreams.counts, r))
    && Total(b.sites.counts) == if setup.sitesEnabled then Sum(b.requests, "matched") else 0
  }

  lemma AccountReconciles(setup: Setup, b: Books, e: Event)
    requires Reconciled(setup, b)
    ensures Reconciled(setup, Account(setup, b, e))
  {
    if e.result in RESULTS {
      var request := Label(if e.profile in setup.profiles then e.profile else "unknown", e.result);
      var upstream := Label(Place(UpstreamLimits(setup), b.upstreams.admitted, Upstream(e.host, e.path)), e.result);
      forall r | r in RESULTS
        ensures Sum(Inc(b.requests, request), r) == Sum(Inc(b.upstreams.counts, upstream), r)
      {
        SumInc(b.requests, request, r);
        SumInc(b.upstreams.counts, upstream, r);
      }
      SumInc(b.requests, request, "matched");
      TotalInc(b.sites.counts, Label(Place(SiteLimits(setup), b.sites.admitted, e.site), e.result));
    }
  }

  /** On every run the three counter families reconcile. */
  lemma {:induction false} AlwaysReconciled(setup: Setup, events: seq<Event>)
    ensures Reconciled(setup, AccountAll(setup, events))
  {
    if events == [] {
      forall r ensures WithResult<string>(map[], r) == map[] && WithResult<Upstream>(map[], r) == map[] {
      }
    } else {
      AlwaysReconciled(setup, events[..|events|-1]);
      AccountReconciles(setup, AccountAll(setup, events[..|events|-1]), events[|events|-1]);
    }
  }

  // ---------------------------------------------------------------- what is counted under which label

  /** The labels the requests of a run are counted under, in order. */
  function RequestLog(setup: Setup, events: seq<Event>): seq<Label<string>> {
    if events == [] then []
    else
      var front, e := RequestLog(setup, events[..|events|-1]), events[|events|-1];
      if e.result !in RESULTS then front
      else front + [Label(if e.profile in setup.profiles then e.profile else "unknown", e.result)]
  }

  function SiteLog(setup: Setup, events: seq<Event>): seq<Label<string>> {
    if events == [] then []
    else
      var front, e := SiteLog(setup, events[..|events|-1]), events[|events|-1];
      if !setup.sitesEnabled || e.result != "matched" then front else front + [Label(e.site, e.result)]
  }

  function UpstreamLog(events: seq<Event>): seq<Label<Upstream>> {
    if events == [] then []
    else
      var front, e := UpstreamLog(events[..|events|-1]), events[|events|-1];
      if e.result !in RESULTS then front else front + [Label(Upstream(e.host, e.path), e.result)]
  }

  /** Each request counter holds exactly the events of its profile and result; unlisted profiles share "unknown". */
  lemma {:induction false} RequestsCountEvents(setup: Setup, events: seq<Event>, l: Label<string>)
    ensures Get(AccountAll(setup, events).requests, l) == multiset(RequestLog(setup, events))[l]
    ensures Get(AccountAll(setup, events).requests, l) > 0 ==>
              (l.key in setup.profiles || l.key == "unknown") && l.result in RESULTS
  {
    if events != [] {
      RequestsCountEvents(setup, events[..|events|-1], l);
    }
  }

  /**
   Requests handled one after the other are an interleaving of the counter families, so what holds in
   every interleaving holds of the books: the logged calls are counted, and nothing is in flight.
   */
  lemma {:induction false} BooksAreRuns(setup: Setup, events: seq<Event>)
    returns (sites: seq<Action<string>>, upstreams: seq<Action<Upstream>>)
    ensures Run(SiteLimits(setup), sites)
            == State(AccountAll(setup, events).sites, multiset{}, SiteLog(setup, events))
    ensures Run(UpstreamLimits(setup), upstreams)
            == State(AccountAll(setup, events).upstreams, multiset{}, UpstreamLog(events))
  {
    sites, upstreams := [], [];
    if events != [] {
      var e := events[|events|-1];
      sites, upstreams := BooksAreRuns(setup, events[..|events|-1]);
      if setup.sitesEnabled && e.result == "matched" {
        sites := OneMore(SiteLimits(setup), sites, e.site, e.result);
      }
      if e.result in RESULTS {
        upstreams := OneMore(UpstreamLimits(setup), upstreams, Upstream(e.host, e.path), e.result);
      }
    }
  }

  lemma OneMore<K(!new)>(limits: Limits<K>, actions: seq<Action<K>>, key: K, result: string)
    returns (more: seq<Action<K>>)
    ensures var s, t := Run(limits, actions), Run(limits, more);
            && t.family == Observe(limits, s.family, key, result)
            && t.pending == s.pending
            && t.log == s.log + [Label(key, result)]
  {
    var l := Label(Place(limits, Run(limits, actions).family.admitted, key), result);
    more := actions + [Lock(key, result), Count(l)];
    SequentialCall(limits, actions, key, result);
  }

  /** Each upstream counter holds exactly the calls that belong to it: its own if its key came early, else the rest. */
  lemma UpstreamsCountEvents(setup: Setup, events: seq<Event>, l: Label<Upstream>)
    ensures var log := UpstreamLog(events);
            && Get(AccountAll(setup, events).upstreams.counts, l) == Belonging(UpstreamLimits(setup), log, |log|, l)
            && AccountAll(setup, events).upstreams.admitted == SetOf(Winners(UpstreamLimits(setup), log))
  {
    var sites, upstreams := BooksAreRuns(setup, events);
    EveryInterleaving(UpstreamLimits(setup), upstreams);
  }

  lemma SitesCountEvents(setup: Setup, events: seq<Event>, l: Label<string>)
    ensures var log := SiteLog(setup, events);
            && Get(AccountAll(setup, events).sites.counts, l) == Belonging(SiteLimits(setup), log, |log|, l)
            && AccountAll(setup, events).sites.admitted == SetOf(Winners(SiteLimits(setup), log))
  {
    var sites, upstreams := BooksAreRuns(setup, events);
    EveryInterleaving(SiteLimits(setup), sites);
  }

  // ---------------------------------------------------------------- the counters in terms of the requests

  /** A request for this profile that ended in this result. */
  function ByProfile(profile: string, result: string): Event -> bool {
    (e: Event) => e.profile == profile && e.result == result
  }

  /** A request that ended in this result, for no profile that is listed, or for one listed as "unknown". */
  function Unlisted(setup: Setup, result: string): Event -> bool {
    (e: Event) => (e.profile !in setup.profiles || e.profile == "unknown") && e.result == result
  }

  predicate FourResults(result: string) {
    result == "matched" || result == "unknown_host" || result == "unknown_path" || result == "method_not_allowed"
  }

  /**
   The request family in terms of the requests: a listed profile holds its own for each of the four
   results, "unknown" those of all others, and nothing else is counted.
   */
  lemma {:induction false} RequestsExactly(setup: Setup, events: seq<Event>, p: string, r: string)
    ensures Get(AccountAll(setup, events).requests, Label(p, r))
            == if !FourResults(r) then 0
               else if p == "unknown" then |Filter(events, Unlisted(setup, r))|
               else if p in setup.profiles then |Filter(events, ByProfile(p, r))|
               else 0
  {
    if events != [] {
      var front, e := events[..|events|-1], events[|events|-1];
      RequestsExactly(setup, front, p, r);
      AccountRequest(setup, AccountAll(setup, front), e, Label(p, r));
    }
  }

  lemma AccountRequest(setup: Setup, b: Books, e: Event, l: Label<string>)
    ensures Get(Account(setup, b, e).requests, l)
            == Get(b.requests, l)
               + if FourResults(e.result) && l.result == e.result
                    && l.key == (if e.profile in setup.profiles then e.profile else "unknown")
                 then 1 else 0
  {
  }

  function LabelOfSite(e: Event): Label<string> {
    Label(e.site, e.result)
  }

  /** The referers of the matched requests, but for "unknown" and "other", in order. */
  function Referers(events: seq<Event>): seq<string> {
    if events == [] then []
    else
      var front, e := Referers(events[..|events|-1]), events[|events|-1];
      if e.result == "matched" && e.site != "unknown" && e.site != "other" then front + [e.site] else front
  }

  /** The first `max` distinct elements. */
  function FirstDistinct<K(==, !new)>(keys: seq<K>, max: int): seq<K> {
    FirstOf(Dedupe(keys), max)
  }

  function OnSite(keep: Label<string> -> bool): Event -> bool {
    (e: Event) => e.result == "matched" && keep(LabelOfSite(e))
  }

  lemma {:induction false} SiteLogFilter(setup: Setup, events: seq<Event>, keep: Label<string> -> bool)
    requires setup.sitesEnabled
    ensures |Filter(SiteLog(setup, events), keep)| == |Filter(events, OnSite(keep))|
  {
    if events != [] {
      var front, e := events[..|events|-1], events[|events|-1];
      SiteLogFilter(setup, front, keep);
      FilterLast(SiteLog(setup, front), LabelOfSite(e), keep);
    }
  }

  lemma {:induction false} SiteKeys(setup: Setup, events: seq<Event>)
    requires setup.sitesEnabled
    ensures Filter(Keys(SiteLog(setup, events)), Bounded(SiteLimits(setup))) == Referers(events)
  {
    if events != [] {
      var front, e := events[..|events|-1], events[|events|-1];
      var log := SiteLog(setup, front);
      SiteKeys(setup, front);
      assert Keys(log + [LabelOfSite(e)]) == Keys(log) + [e.site];
      FilterLast(Keys(log), e.site, Bounded(SiteLimits(setup)));
    }
  }

  /** A matched request with this referer. */
  function MatchedFrom(site: string): Event -> bool {
    (e: Event) => e.result == "matched" && e.site == site
  }

  /** A matched request whose referer has no label of its own. */
  function MatchedElsewhere(admitted: set<string>): Event -> bool {
    (e: Event) => e.result == "matched" && e.site != "unknown" && e.site !in admitted
  }

  /**
   The site family in terms of the requests. When it is enabled, the first `sitesMax` distinct referers
   of matched requests have places, and "unknown" and "other" take none. "unknown" and each referer with a
   place hold exactly their own matched requests, "other" holds the rest, and nothing else is counted.
   */
  lemma SitesExactly(setup: Setup, events: seq<Event>, site: string, result: string)
    requires setup.sitesEnabled
    ensures var f := AccountAll(setup, events).sites;
            && "unknown" !in f.admitted && "other" !in f.admitted
            && f.admitted == SetOf(FirstDistinct(Referers(events), setup.sitesMax))
            && Get(f.counts, Label(site, result))
               == if result != "matched" then 0
                  else if site == "unknown" || site in f.admitted then |Filter(events, MatchedFrom(site))|
                  else if site == "other" then |Filter(events, MatchedElsewhere(f.admitted))|
                  else 0
  {
    var log, limits, l := SiteLog(setup, events), SiteLimits(setup), Label(site, result);
    var f := AccountAll(setup, events).sites;
    SitesCountEvents(setup, events, l);
    SiteKeys(setup, events);
    RefererSites(events);
    assert f.admitted == SetOf(FirstDistinct(Referers(events), setup.sitesMax));
    BelongingFilter(limits, log, |log|, l);
    assert log[..|log|] == log;
    SiteLogFilter(setup, events, PlacedAt(limits, log, l));
    SitePlaces(setup, events, f.admitted, site, result);
  }

  lemma {:induction false} RefererSites(events: seq<Event>)
    ensures "unknown" !in Referers(events) && "other" !in Referers(events)
  {
    if events != [] {
      RefererSites(events[..|events|-1]);
    }
  }

  lemma SitePlaces(setup: Setup, events: seq<Event>, admitted: set<string>, site: string, result: string)
    requires admitted == SetOf(Winners(SiteLimits(setup), SiteLog(setup, events)))
    requires "unknown" !in admitted && "other" !in admitted
    ensures var keep := PlacedAt(SiteLimits(setup), SiteLog(setup, events), Label(site, result));
            |Filter(events, OnSite(keep))|
            == if result != "matched" then 0
               else if site == "unknown" || site in admitted then |Filter(events, MatchedFrom(site))|
               else if site == "other" then |Filter(events, MatchedElsewhere(admitted))|
               else 0
  {
    var limits, log := SiteLimits(setup), SiteLog(setup, events);
    var keep := PlacedAt(limits, log, Label(site, result));
    forall e: Event ensures OnSite(keep)(e)
                            <==> e.result == "matched" == result
                                 && site == if e.site == "unknown" || e.site in admitted then e.site else "other"
    {
      assert Where(limits, log, e.site) == if e.site == "unknown" || e.site in admitted then e.site else "other";
      assert keep(LabelOfSite(e)) == (Label(Where(limits, log, e.site), e.result) == Label(site, result));
    }
    if result == "matched" && (site == "unknown" || site in admitted) {
      SameFilter(events, OnSite(keep), MatchedFrom(site));
    } else if result == "matched" && site == "other" {
      SameFilter(events, OnSite(keep), MatchedElsewhere(admitted));
    } else {
      FilterNone(events, OnSite(keep));
    }
  }

  /** A family that is not enabled holds nothing. */
  lemma {:induction false} SitesDisabled(setup: Setup, events: seq<Event>)
    requires !setup.sitesEnabled
    ensures AccountAll(setup, events).sites == Family({}, map[])
  {
    if events != [] {
      SitesDisabled(setup, events[..|events|-1]);
    }
  }

  function LabelOfUpstream(e: Event): Label<Upstream> {
    Label(Upstream(e.host, e.path), e.result)
  }

  /** Host and path of the requests that end in one of the four results, in order. */
  function HostsAndPaths(events: seq<Event>): seq<Upstream> {
    if events == [] then []
    else
      var front, e := HostsAndPaths(events[..|events|-1]), events[|events|-1];
      if FourResults(e.result) then front + [Upstream(e.host, e.path)] else front
  }

  function OnUpstream(keep: Label<Upstream> -> bool): Event -> bool {
    (e: Event) => FourResults(e.result) && keep(LabelOfUpstream(e))
  }

  lemma UpstreamLogLast(events: seq<Event>, e: Event)
    ensures UpstreamLog(events + [e])
            == UpstreamLog(events) + if FourResults(e.result) then [LabelOfUpstream(e)] else []
  {
    assert (events + [e])[..|events|] == events;
  }

  lemma {:induction false} UpstreamLogFilter(events: seq<Event>, keep: Label<Upstream> -> bool)
    ensures |Filter(UpstreamLog(events), keep)| == |Filter(events, OnUpstream(keep))|
  {
    if events != [] {
      var front, e := events[..|events|-1], events[|events|-1];
      UpstreamLogFilter(front, keep);
      UpstreamLogLast(front, e);
      assert front + [e] == events;
      FilterLast(UpstreamLog(front), LabelOfUpstream(e), keep);
      FilterLast(front, e, OnUpstream(keep));
    }
  }

  lemma {:induction false} UpstreamKeys(setup: Setup, events: seq<Event>)
    ensures Filter(Keys(UpstreamLog(events)), Bounded(UpstreamLimits(setup))) == HostsAndPaths(events)
  {
    if events != [] {
      var front, e := events[..|events|-1], events[|events|-1];
      var log := UpstreamLog(front);
      UpstreamKeys(setup, front);
      UpstreamLogLast(front, e);
      assert front + [e] == events;
      assert Keys(log + [LabelOfUpstream(e)]) == Keys(log) + [LabelOfUpstream(e).key];
      FilterLast(Keys(log), LabelOfUpstream(e).key, Bounded(UpstreamLimits(setup)));
    }
  }

  /** A request for this host and path that ended in this result. */
  function RequestFor(upstream: Upstream, result: string): Event -> bool {
    (e: Event) => Upstream(e.host, e.path) == upstream && e.result == result
  }

  /** A request that ended in this result and is counted under "other": its host and path have no place, or are that. */
  function RequestElsewhere(admitted: set<Upstream>, result: string): Event -> bool {
    (e: Event) =>
      && (Upstream(e.host, e.path) !in admitted || Upstream(e.host, e.path) == Upstream("other", "other"))
      && e.result == result
  }

  /**
   The upstream family in terms of the requests: the first `upstreamsMax` distinct pairs of host and path
   have places and hold exactly their own requests, for each of the four results; "other" holds the rest.
   */
  lemma UpstreamsExactly(setup: Setup, events: seq<Event>, u: Upstream, result: string)
    ensures var f := AccountAll(setup, events).upstreams;
            && f.admitted == SetOf(FirstDistinct(HostsAndPaths(events), setup.upstreamsMax))
            && Get(f.counts, Label(u, result))
               == if !FourResults(result) then 0
                  else if u == Upstream("other", "other") then |Filter(events, RequestElsewhere(f.admitted, result))|
                  else if u in f.admitted then |Filter(events, RequestFor(u, result))|
                  else 0
  {
    var log, limits, l := UpstreamLog(events), UpstreamLimits(setup), Label(u, result);
    var f := AccountAll(setup, events).upstreams;
    UpstreamsCountEvents(setup, events, l);
    UpstreamKeys(setup, events);
    BelongingFilter(limits, log, |log|, l);
    assert log[..|log|] == log;
    UpstreamLogFilter(events, PlacedAt(limits, log, l));
    UpstreamPlaces(setup, events, f.admitted, u, result);
  }

  lemma UpstreamPlaces(setup: Setup, events: seq<Event>, admitted: set<Upstream>, u: Upstream, result: string)
    requires admitted == SetOf(Winners(UpstreamLimits(setup), UpstreamLog(events)))
    ensures var keep := PlacedAt(UpstreamLimits(setup), UpstreamLog(events), Label(u, result));
            |Filter(events, OnUpstream(keep))|
            == if !FourResults(result) then 0
               else if u == Upstream("other", "other") then |Filter(events, RequestElsewhere(admitted, result))|
               else if u in admitted then |Filter(events, RequestFor(u, result))|
               else 0
  {
    var limits, log := UpstreamLimits(setup), UpstreamLog(events);
    var keep := PlacedAt(limits, log, Label(u, result));
    forall e: Event ensures OnUpstream(keep)(e)
                            <==> FourResults(result) && e.result == result
                                 && u == if Upstream(e.host, e.path) in admitted then Upstream(e.host, e.path)
                                         else Upstream("other", "other")
    {
      assert Where(limits, log, Upstream(e.host, e.path))
             == if Upstream(e.host, e.path) in admitted then Upstream(e.host, e.path) else Upstream("other", "other");
      assert keep(LabelOfUpstream(e))
             == (Label(Where(limits, log, Upstream(e.host, e.path)), e.result) == Label(u, result));
    }
    if FourResults(result) && u == Upstream("other", "other") {
      SameFilter(events, OnUpstream(keep), RequestElsewhere(admitted, result));
    } else if FourResults(result) && u in admitted {
      SameFilter(events, OnUpstream(keep), RequestFor(u, result));
    } else {
      FilterNone(events, OnUpstream(keep));
    }
  }

  /** A handshake failure adds one to its reason and leaves the other as it was. */
  lemma FailedAddsOne(handshake: map<string, nat>, reason: string)
    ensures reason in Failed(handshake, reason)
    ensures Failed(handshake, reason)[reason] == if reason in handshake then handshake[reason] + 1 else 1
    ensures forall other :: other != reason ==>
              (other in Failed(handshake, reason) <==> other in handshake)
              && (other in handshake ==> Failed(handshake, reason)[other] == handshake[other])
  {
  }

  /** Site labels number at most `sitesMax` + 2. */
  lemma SiteLabelsBounded(setup: Setup, actions: seq<Action<string>>)
    requires setup.sitesMax >= 0
    requires forall a :: a in actions && a.Lock? ==> a.result == "matched"
    ensures |Run(SiteLimits(setup), actions).family.counts.Keys| <= setup.sitesMax + 2
  {
    var extra := SiteLimits(setup).exempt + {"other"};
    assert extra == {"unknown", "other"} && |extra| == 2;
    LabelsBounded(SiteLimits(setup), actions, {"matched"});
    assert |{"matched"}| == 1;
    assert (setup.sitesMax + 2) * 1 == setup.sitesMax + 2;
  }

  /** Upstream label triples number at most 4 * (`upstreamsMax` + 1). */
  lemma UpstreamLabelsBounded(setup: Setup, actions: seq<Action<Upstream>>)
    requires setup.upstreamsMax >= 0
    requires forall a :: a in actions && a.Lock? ==> a.result in RESULTS
    ensures |Run(UpstreamLimits(setup), actions).family.counts.Keys| <= 4 * (setup.upstreamsMax + 1)
  {
    var extra := UpstreamLimits(setup).exempt + {Upstream("other", "other")};
    assert extra == {Upstream("other", "other")} && |extra| == 1;
    assert |RESULTS| == 4;
    LabelsBounded(UpstreamLimits(setup), actions, RESULTS);
  }
}
