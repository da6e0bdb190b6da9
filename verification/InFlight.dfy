/**
 Requests handled at the same time: the server runs ServeHTTP once for every request, and the steps in
 which the three counter families are brought up to date interleave freely.
 */
module InFlight {
  import opened Seqs
  import opened Counters
  import opened Metrics

  /** How far a handler has come. The mutex covers the admission of a key only, so counting it is a step of its own. */
  datatype Phase =
    | Entered
    | RequestCounted
    | SiteAdmitted(site: Label<string>)
    | SiteDone
    | UpstreamAdmitted(upstream: Label<Upstream>)
    | Finished

  datatype Handling = Handling(event: Event, phase: Phase)

  datatype Server = Server(books: Books, handlings: seq<Handling>)

  datatype Happening = Arrive(event: Event) | Proceed(i: nat)

  datatype Move = Move(books: Books, phase: Phase)

  /** The next step of one handler. */
  function Next(setup: Setup, b: Books, h: Handling): Move {
    var e := h.event;
    match h.phase
    case Entered => Move(AfterRequest(setup, b, e.profile, e.result), RequestCounted)
    case RequestCounted =>
      if !setup.sitesEnabled || e.result != "matched" then Move(b, SiteDone)
      else
        var limits, was := SiteLimits(setup), b.sites.admitted;
        Move(b.(sites := b.sites.(admitted := AdmitKey(limits, was, e.site))),
             SiteAdmitted(Label(Place(limits, was, e.site), e.result)))
    case SiteAdmitted(l) => Move(b.(sites := b.sites.(counts := Inc(b.sites.counts, l))), SiteDone)
    case SiteDone =>
      if e.result !in RESULTS then Move(b, Finished)
      else
        var limits, was, key := UpstreamLimits(setup), b.upstreams.admitted, Upstream(e.host, e.path);
        Move(b.(upstreams := b.upstreams.(admitted := AdmitKey(limits, was, key))),
             UpstreamAdmitted(Label(Place(limits, was, key), e.result)))
    case UpstreamAdmitted(l) => Move(b.(upstreams := b.upstreams.(counts := Inc(b.upstreams.counts, l))), Finished)
    case Finished => Move(b, Finished)
  }

  function Happen(setup: Setup, s: Server, a: Happening): Server {
    match a
    case Arrive(e) => s.(handlings := s.handlings + [Handling(e, Entered)])
    case Proceed(i) =>
      if i < |s.handlings| then
        var m := Next(setup, s.books, s.handlings[i]);
        Server(m.books, s.handlings[i := s.handlings[i].(phase := m.phase)])
      else s
  }

  function ServerAfter(setup: Setup, happenings: seq<Happening>): Server {
    if happenings == [] then Server(OPENING, [])
    else Happen(setup, ServerAfter(setup, happenings[..|happenings|-1]), happenings[|happenings|-1])
  }

  lemma ServerStep(setup: Setup, happenings: seq<Happening>, a: Happening)
    ensures ServerAfter(setup, happenings + [a]) == Happen(setup, ServerAfter(setup, happenings), a)
  {
  }

  // ---------------------------------------------------------------- the families, in every interleaving

  /** The request family holds the handler's request. */
  function PastRequest(result: string): Handling -> bool {
    (h: Handling) => h.event.result == result && !h.phase.Entered?
  }

  /** The site family is behind this handler. */
  function PastSite(result: string): Handling -> bool {
    (h: Handling) => h.event.result == result && (h.phase.SiteDone? || h.phase.UpstreamAdmitted? || h.phase.Finished?)
  }

  function Through(result: string): Handling -> bool {
    (h: Handling) => h.event.result == result && h.phase.Finished?
  }

  /** Counted in the request family, and not yet in the upstream family. */
  function Between(result: string): Handling -> bool {
    (h: Handling) => h.event.result == result && !h.phase.Entered? && !h.phase.Finished?
  }

  /** A label waits to be counted only in a handler that counts it, with that handler's result. */
  predicate InStep(setup: Setup, h: Handling) {
    && (h.phase.SiteAdmitted? ==> setup.sitesEnabled && h.event.result == "matched")
    && (h.phase.UpstreamAdmitted? ==> h.event.result in RESULTS && h.phase.upstream.result == h.event.result)
  }

  ghost predicate Kept(setup: Setup, s: Server) {
    && (forall h :: h in s.handlings ==> InStep(setup, h))
    && (forall r :: r in RESULTS ==>
          && Sum(s.books.requests, r) == |Filter(s.handlings, PastRequest(r))|
          && Sum(s.books.upstreams.counts, r) == |Filter(s.handlings, Through(r))|)
    && Total(s.books.sites.counts) == if setup.sitesEnabled then |Filter(s.handlings, PastSite("matched"))| else 0
  }

  function One(holds: bool): nat {
    if holds then 1 else 0
  }

  /** What one step adds to the families is what it adds to the handlers that are past them. */
  lemma NextCounts(setup: Setup, b: Books, h: Handling, r: string)
    requires InStep(setup, h) && r in RESULTS
    ensures var m := Next(setup, b, h);
            var h' := h.(phase := m.phase);
            && Sum(m.books.requests, r) + One(PastRequest(r)(h)) == Sum(b.requests, r) + One(PastRequest(r)(h'))
            && Sum(m.books.upstreams.counts, r) + One(Through(r)(h)) == Sum(b.upstreams.counts, r) + One(Through(r)(h'))
  {
    match h.phase
    case Entered =>
      var e := h.event;
      SumInc(b.requests, Label(if e.profile in setup.profiles then e.profile else "unknown", e.result), r);
    case UpstreamAdmitted(l) => SumInc(b.upstreams.counts, l, r);
    case _ =>
  }

  lemma NextSites(setup: Setup, b: Books, h: Handling)
    requires InStep(setup, h)
    ensures var m := Next(setup, b, h);
            var h' := h.(phase := m.phase);
            && InStep(setup, h')
            && Total(m.books.sites.counts) + (if setup.sitesEnabled then One(PastSite("matched")(h)) else 0)
               == Total(b.sites.counts) + if setup.sitesEnabled then One(PastSite("matched")(h')) else 0
  {
    if h.phase.SiteAdmitted? {
      TotalInc(b.sites.counts, h.phase.site);
    }
  }

  /** The families after a step agree with the handlers after it, for one result. */
  lemma ProceedCounts(setup: Setup, b: Books, hs: seq<Handling>, i: nat, r: string)
    requires i < |hs| && r in RESULTS && InStep(setup, hs[i])
    requires Sum(b.requests, r) == |Filter(hs, PastRequest(r))|
    requires Sum(b.upstreams.counts, r) == |Filter(hs, Through(r))|
    ensures var m := Next(setup, b, hs[i]);
            var after := hs[i := hs[i].(phase := m.phase)];
            && Sum(m.books.requests, r) == |Filter(after, PastRequest(r))|
            && Sum(m.books.upstreams.counts, r) == |Filter(after, Through(r))|
  {
    var h' := hs[i].(phase := Next(setup, b, hs[i]).phase);
    NextCounts(setup, b, hs[i], r);
    FilterUpdate(hs, i, h', PastRequest(r));
    FilterUpdate(hs, i, h', Through(r));
  }

  lemma ProceedSites(setup: Setup, b: Books, hs: seq<Handling>, i: nat)
    requires i < |hs| && InStep(setup, hs[i])
    requires Total(b.sites.counts) == if setup.sitesEnabled then |Filter(hs, PastSite("matched"))| else 0
    ensures var m := Next(setup, b, hs[i]);
            var after := hs[i := hs[i].(phase := m.phase)];
            && InStep(setup, after[i])
            && Total(m.books.sites.counts) == if setup.sitesEnabled then |Filter(after, PastSite("matched"))| else 0
  {
    NextSites(setup, b, hs[i]);
    FilterUpdate(hs, i, hs[i].(phase := Next(setup, b, hs[i]).phase), PastSite("matched"));
  }

  lemma ProceedKeeps(setup: Setup, s: Server, i: nat)
    requires Kept(setup, s) && i < |s.handlings|
    ensures Kept(setup, Happen(setup, s, Proceed(i)))
  {
    var t := Happen(setup, s, Proceed(i));
    assert s.handlings[i] in s.handlings;
    ProceedSites(setup, s.books, s.handlings, i);
    forall r | r in RESULTS
      ensures Sum(t.books.requests, r) == |Filter(t.handlings, PastRequest(r))|
      ensures Sum(t.books.upstreams.counts, r) == |Filter(t.handlings, Through(r))|
    {
      ProceedCounts(setup, s.books, s.handlings, i, r);
    }
    forall h | h in t.handlings ensures InStep(setup, h) {
      assert h == t.handlings[i] || h in s.handlings;
    }
  }

  lemma ArriveKeeps(setup: Setup, s: Server, e: Event)
    requires Kept(setup, s)
    ensures Kept(setup, Happen(setup, s, Arrive(e)))
  {
    var h := Handling(e, Entered);
    FilterLast(s.handlings, h, PastSite("matched"));
    forall r | r in RESULTS
      ensures Filter(s.handlings + [h], PastRequest(r)) == Filter(s.handlings, PastRequest(r))
      ensures Filter(s.handlings + [h], Through(r)) == Filter(s.handlings, Through(r))
    {
      FilterLast(s.handlings, h, PastRequest(r));
      FilterLast(s.handlings, h, Through(r));
    }
  }

  /**
   In every interleaving, for each result, the request family holds the handlers past its step and the
   upstream family those that are finished; the site family holds the matched ones past it, if enabled.
   */
  lemma {:induction false} EveryHandlingCounted(setup: Setup, happenings: seq<Happening>)
    ensures Kept(setup, ServerAfter(setup, happenings))
  {
    if happenings == [] {
      forall r ensures WithResult<string>(map[], r) == map[] && WithResult<Upstream>(map[], r) == map[] {
      }
    } else {
      var s, a := ServerAfter(setup, happenings[..|happenings|-1]), happenings[|happenings|-1];
      EveryHandlingCounted(setup, happenings[..|happenings|-1]);
      match a
      case Arrive(e) => ArriveKeeps(setup, s, e);
      case Proceed(i) =>
        if i < |s.handlings| {
          ProceedKeeps(setup, s, i);
        }
    }
  }

  /** At every instant the request family is ahead of the upstream family by exactly the handlers between the two. */
  lemma ImbalanceIsInFlight(setup: Setup, happenings: seq<Happening>, r: string)
    requires r in RESULTS
    ensures var s := ServerAfter(setup, happenings);
            Sum(s.books.requests, r) == Sum(s.books.upstreams.counts, r) + |Filter(s.handlings, Between(r))|
  {
    EveryHandlingCounted(setup, happenings);
    FilterSplit(ServerAfter(setup, happenings).handlings, PastRequest(r), Through(r), Between(r));
  }

  /** Every handler, as far as its result is counted at all, has either not begun to count or is finished. */
  ghost predicate NothingBetween(handlings: seq<Handling>) {
    forall h :: h in handlings && h.event.result in RESULTS ==> h.phase.Entered? || h.phase.Finished?
  }

  lemma NothingBetweenCounts(handlings: seq<Handling>)
    ensures NothingBetween(handlings) <==> forall r :: r in RESULTS ==> |Filter(handlings, Between(r))| == 0
  {
    if NothingBetween(handlings) {
      forall r | r in RESULTS ensures |Filter(handlings, Between(r))| == 0 {
        FilterNone(handlings, Between(r));
      }
    } else {
      var h :| h in handlings && h.event.result in RESULTS && !h.phase.Entered? && !h.phase.Finished?;
      assert h in Filter(handlings, Between(h.event.result));
    }
  }

  lemma SitesPast(handlings: seq<Handling>)
    requires NothingBetween(handlings)
    ensures Filter(handlings, PastRequest("matched")) == Filter(handlings, PastSite("matched"))
  {
    assert "matched" in RESULTS;
    SameFilter(handlings, PastRequest("matched"), PastSite("matched"));
  }

  /**
   The three families reconcile exactly at the instants when no handler is between its first count and
   its last; so always when nothing is in flight.
   */
  lemma ReconciledExactly(setup: Setup, happenings: seq<Happening>)
    ensures var s := ServerAfter(setup, happenings);
            Reconciled(setup, s.books) <==> NothingBetween(s.handlings)
  {
    var s := ServerAfter(setup, happenings);
    EveryHandlingCounted(setup, happenings);
    NothingBetweenCounts(s.handlings);
    forall r | r in RESULTS
      ensures Sum(s.books.requests, r) == Sum(s.books.upstreams.counts, r) + |Filter(s.handlings, Between(r))|
    {
      ImbalanceIsInFlight(setup, happenings, r);
    }
    if NothingBetween(s.handlings) {
      SitesPast(s.handlings);
      assert "matched" in RESULTS;
    }
  }

  /** With one request between its first count and its last, they do not. */
  lemma HalfwayIsNotReconciled(setup: Setup, e: Event)
    requires e.result in RESULTS
    ensures !Reconciled(setup, ServerAfter(setup, [Arrive(e), Proceed(0)]).books)
  {
    ServerStep(setup, [], Arrive(e));
    ServerStep(setup, [Arrive(e)], Proceed(0));
    assert [] + [Arrive(e)] == [Arrive(e)] && [Arrive(e)] + [Proceed(0)] == [Arrive(e), Proceed(0)];
    var s := ServerAfter(setup, [Arrive(e), Proceed(0)]);
    assert s.handlings == [Handling(e, RequestCounted)];
    assert s.handlings[0] in s.handlings;
    ReconciledExactly(setup, [Arrive(e), Proceed(0)]);
  }

  // ---------------------------------------------------------------- labels, in every interleaving

  /** The handler has been given this site label and has yet to count it. */
  function SiteWaits(l: Label<string>): Handling -> bool {
    (h: Handling) => h.phase == SiteAdmitted(l)
  }

  function UpstreamWaits(l: Label<Upstream>): Handling -> bool {
    (h: Handling) => h.phase == UpstreamAdmitted(l)
  }

  /** The handler has called the site family, for this site and result. */
  function SiteCalls(setup: Setup, l: Label<string>): Handling -> bool {
    (h: Handling) =>
      && setup.sitesEnabled && h.event.result == "matched"
      && !h.phase.Entered? && !h.phase.RequestCounted?
      && l == Label(h.event.site, h.event.result)
  }

  function UpstreamCalls(l: Label<Upstream>): Handling -> bool {
    (h: Handling) =>
      && h.event.result in RESULTS
      && (h.phase.UpstreamAdmitted? || h.phase.Finished?)
      && l == Label(Upstream(h.event.host, h.event.path), h.event.result)
  }

  /** A run of the site family in which the handlers' labels wait and the handlers' calls were made. */
  ghost predicate SitesRun(setup: Setup, s: Server, run: State<string>) {
    && run.family == s.books.sites
    && (forall l :: run.pending[l] == |Filter(s.handlings, SiteWaits(l))|)
    && (forall l :: multiset(run.log)[l] == |Filter(s.handlings, SiteCalls(setup, l))|)
  }

  ghost predicate UpstreamsRun(s: Server, run: State<Upstream>) {
    && run.family == s.books.upstreams
    && (forall l :: run.pending[l] == |Filter(s.handlings, UpstreamWaits(l))|)
    && (forall l :: multiset(run.log)[l] == |Filter(s.handlings, UpstreamCalls(l))|)
  }

  /** What a handler's next step means to the site family. */
  function SiteActions(setup: Setup, h: Handling): seq<Action<string>> {
    match h.phase
    case RequestCounted =>
      if setup.sitesEnabled && h.event.result == "matched" then [Lock(h.event.site, h.event.result)] else []
    case SiteAdmitted(l) => [Count(l)]
    case _ => []
  }

  function UpstreamActions(h: Handling): seq<Action<Upstream>> {
    match h.phase
    case SiteDone =>
      if h.event.result in RESULTS then [Lock(Upstream(h.event.host, h.event.path), h.event.result)] else []
    case UpstreamAdmitted(l) => [Count(l)]
    case _ => []
  }

  function Steps<K(==)>(limits: Limits<K>, run: State<K>, actions: seq<Action<K>>): State<K>
    requires |actions| <= 1
  {
    if actions == [] then run else Step(limits, run, actions[0])
  }

  lemma RunMore<K(!new)>(limits: Limits<K>, actions: seq<Action<K>>, more: seq<Action<K>>)
    returns (all: seq<Action<K>>)
    requires |more| <= 1
    ensures Run(limits, all) == Steps(limits, Run(limits, actions), more)
  {
    all := actions;
    if more != [] {
      all := actions + [more[0]];
      RunStep(limits, actions, more[0]);
    }
  }

  lemma SiteMoveWaits(setup: Setup, b: Books, h: Handling, run: State<string>, l: Label<string>)
    requires InStep(setup, h) && run.family == b.sites
    requires h.phase.SiteAdmitted? ==> h.phase.site in run.pending
    ensures var m, next := Next(setup, b, h), Steps(SiteLimits(setup), run, SiteActions(setup, h));
            && next.family == m.books.sites
            && next.pending[l] + One(SiteWaits(l)(h)) == run.pending[l] + One(SiteWaits(l)(h.(phase := m.phase)))
  {
    if h.phase.SiteAdmitted? {
    } else if h.phase.RequestCounted? {
    } else {
      assert SiteActions(setup, h) == [];
    }
  }

  lemma SiteMoveCalls(setup: Setup, b: Books, h: Handling, run: State<string>, l: Label<string>)
    requires InStep(setup, h)
    ensures var m, next := Next(setup, b, h), Steps(SiteLimits(setup), run, SiteActions(setup, h));
            multiset(next.log)[l] + One(SiteCalls(setup, l)(h))
            == multiset(run.log)[l] + One(SiteCalls(setup, l)(h.(phase := m.phase)))
  {
    if h.phase.SiteAdmitted? {
    } else if h.phase.RequestCounted? {
    } else {
      assert SiteActions(setup, h) == [];
    }
  }

  lemma UpstreamMoveWaits(setup: Setup, b: Books, h: Handling, run: State<Upstream>, l: Label<Upstream>)
    requires InStep(setup, h) && run.family == b.upstreams
    requires h.phase.UpstreamAdmitted? ==> h.phase.upstream in run.pending
    ensures var m, next := Next(setup, b, h), Steps(UpstreamLimits(setup), run, UpstreamActions(h));
            && next.family == m.books.upstreams
            && next.pending[l] + One(UpstreamWaits(l)(h))
               == run.pending[l] + One(UpstreamWaits(l)(h.(phase := m.phase)))
  {
    if h.phase.UpstreamAdmitted? {
    } else if h.phase.SiteDone? {
    } else {
      assert UpstreamActions(h) == [];
    }
  }

  lemma UpstreamMoveCalls(setup: Setup, b: Books, h: Handling, run: State<Upstream>, l: Label<Upstream>)
    requires InStep(setup, h)
    ensures var m, next := Next(setup, b, h), Steps(UpstreamLimits(setup), run, UpstreamActions(h));
            multiset(next.log)[l] + One(UpstreamCalls(l)(h))
            == multiset(run.log)[l] + One(UpstreamCalls(l)(h.(phase := m.phase)))
  {
    if h.phase.UpstreamAdmitted? {
    } else if h.phase.SiteDone? {
    } else {
      assert UpstreamActions(h) == [];
    }
  }

  /** A number that follows one handler stays the number of all handlers a filter keeps. */
  lemma FilterFollows(hs: seq<Handling>, i: nat, h: Handling, keep: Handling -> bool, was: nat, now: nat)
    requires i < |hs| && was == |Filter(hs, keep)| && now + One(keep(hs[i])) == was + One(keep(h))
    ensures now == |Filter(hs[i := h], keep)|
  {
    FilterUpdate(hs, i, h, keep);
  }

  lemma SitesProceed(setup: Setup, s: Server, i: nat, run: State<string>)
    requires i < |s.handlings| && InStep(setup, s.handlings[i]) && SitesRun(setup, s, run)
    ensures SitesRun(
              setup, Happen(setup, s, Proceed(i)),
              Steps(SiteLimits(setup), run, SiteActions(setup, s.handlings[i])))
  {
    var h := s.handlings[i];
    assert h.phase.SiteAdmitted? ==> h in Filter(s.handlings, SiteWaits(h.phase.site));
    var h', next := h.(phase := Next(setup, s.books, h).phase), Steps(SiteLimits(setup), run, SiteActions(setup, h));
    assert next.family == Next(setup, s.books, h).books.sites by {
      SiteMoveWaits(setup, s.books, h, run, Label("", ""));
    }
    forall l ensures next.pending[l] == |Filter(s.handlings[i := h'], SiteWaits(l))| {
      SiteMoveWaits(setup, s.books, h, run, l);
      FilterFollows(s.handlings, i, h', SiteWaits(l), run.pending[l], next.pending[l]);
    }
    forall l ensures multiset(next.log)[l] == |Filter(s.handlings[i := h'], SiteCalls(setup, l))| {
      SiteMoveCalls(setup, s.books, h, run, l);
      FilterFollows(s.handlings, i, h', SiteCalls(setup, l), multiset(run.log)[l], multiset(next.log)[l]);
    }
  }

  lemma UpstreamsProceed(setup: Setup, s: Server, i: nat, run: State<Upstream>)
    requires i < |s.handlings| && InStep(setup, s.handlings[i]) && UpstreamsRun(s, run)
    ensures UpstreamsRun(
              Happen(setup, s, Proceed(i)), Steps(UpstreamLimits(setup), run, UpstreamActions(s.handlings[i])))
  {
    var h := s.handlings[i];
    assert h.phase.UpstreamAdmitted? ==> h in Filter(s.handlings, UpstreamWaits(h.phase.upstream));
    var h', next := h.(phase := Next(setup, s.books, h).phase), Steps(UpstreamLimits(setup), run, UpstreamActions(h));
    assert next.family == Next(setup, s.books, h).books.upstreams by {
      UpstreamMoveWaits(setup, s.books, h, run, Label(Upstream("", ""), ""));
    }
    forall l ensures next.pending[l] == |Filter(s.handlings[i := h'], UpstreamWaits(l))| {
      UpstreamMoveWaits(setup, s.books, h, run, l);
      FilterFollows(s.handlings, i, h', UpstreamWaits(l), run.pending[l], next.pending[l]);
    }
    forall l ensures multiset(next.log)[l] == |Filter(s.handlings[i := h'], UpstreamCalls(l))| {
      UpstreamMoveCalls(setup, s.books, h, run, l);
      FilterFollows(s.handlings, i, h', UpstreamCalls(l), multiset(run.log)[l], multiset(next.log)[l]);
    }
  }

  /** A handler that has just entered neither waits for a label nor has made a call. */
  lemma ArriveRuns(setup: Setup, s: Server, e: Event, sites: State<string>, upstreams: State<Upstream>)
    requires SitesRun(setup, s, sites) && UpstreamsRun(s, upstreams)
    ensures SitesRun(setup, Happen(setup, s, Arrive(e)), sites)
    ensures UpstreamsRun(Happen(setup, s, Arrive(e)), upstreams)
  {
    var h := Handling(e, Entered);
    forall l ensures Filter(s.handlings + [h], SiteWaits(l)) == Filter(s.handlings, SiteWaits(l)) {
      FilterLast(s.handlings, h, SiteWaits(l));
    }
    forall l ensures Filter(s.handlings + [h], SiteCalls(setup, l)) == Filter(s.handlings, SiteCalls(setup, l)) {
      FilterLast(s.handlings, h, SiteCalls(setup, l));
    }
    forall l ensures Filter(s.handlings + [h], UpstreamWaits(l)) == Filter(s.handlings, UpstreamWaits(l)) {
      FilterLast(s.handlings, h, UpstreamWaits(l));
    }
    forall l ensures Filter(s.handlings + [h], UpstreamCalls(l)) == Filter(s.handlings, UpstreamCalls(l)) {
      FilterLast(s.handlings, h, UpstreamCalls(l));
    }
  }

  lemma RunsProceed(
      setup: Setup, s: Server, i: nat, sites: seq<Action<string>>, upstreams: seq<Action<Upstream>>)
    returns (moreSites: seq<Action<string>>, moreUpstreams: seq<Action<Upstream>>)
    requires i < |s.handlings| && InStep(setup, s.handlings[i])
    requires SitesRun(setup, s, Run(SiteLimits(setup), sites)) && UpstreamsRun(s, Run(UpstreamLimits(setup), upstreams))
    ensures SitesRun(setup, Happen(setup, s, Proceed(i)), Run(SiteLimits(setup), moreSites))
    ensures UpstreamsRun(Happen(setup, s, Proceed(i)), Run(UpstreamLimits(setup), moreUpstreams))
  {
    SitesProceed(setup, s, i, Run(SiteLimits(setup), sites));
    UpstreamsProceed(setup, s, i, Run(UpstreamLimits(setup), upstreams));
    moreSites := RunMore(SiteLimits(setup), sites, SiteActions(setup, s.handlings[i]));
    moreUpstreams := RunMore(UpstreamLimits(setup), upstreams, UpstreamActions(s.handlings[i]));
  }

  /**
   However the handlers interleave, each bounded family goes through one of its own interleavings, so
   every statement about those holds of it: the labels given out wait in the handlers that have them,
   and its calls are the handlers' calls.
   */
  lemma {:induction false} FamiliesAreRuns(setup: Setup, happenings: seq<Happening>)
    returns (sites: seq<Action<string>>, upstreams: seq<Action<Upstream>>)
    ensures SitesRun(setup, ServerAfter(setup, happenings), Run(SiteLimits(setup), sites))
    ensures UpstreamsRun(ServerAfter(setup, happenings), Run(UpstreamLimits(setup), upstreams))
  {
    sites, upstreams := [], [];
    if happenings != [] {
      var s, a := ServerAfter(setup, happenings[..|happenings|-1]), happenings[|happenings|-1];
      sites, upstreams := FamiliesAreRuns(setup, happenings[..|happenings|-1]);
      match a
      case Arrive(e) =>
        ArriveRuns(setup, s, e, Run(SiteLimits(setup), sites), Run(UpstreamLimits(setup), upstreams));
      case Proceed(i) =>
        if i < |s.handlings| {
          HandlingsInStep(setup, happenings[..|happenings|-1], i);
          sites, upstreams := RunsProceed(setup, s, i, sites, upstreams);
        }
    }
  }

  lemma HandlingsInStep(setup: Setup, happenings: seq<Happening>, i: nat)
    requires i < |ServerAfter(setup, happenings).handlings|
    ensures InStep(setup, ServerAfter(setup, happenings).handlings[i])
  {
    EveryHandlingCounted(setup, happenings);
  }

  /**
   At every instant, in some order of the calls made so far, the admitted upstreams are the first
   ones, and each counter lacks exactly the handlers in flight among the calls that belong to it.
   */
  lemma UpstreamsInFlight(setup: Setup, happenings: seq<Happening>) returns (log: seq<Label<Upstream>>)
    ensures var s := ServerAfter(setup, happenings);
            && (forall l :: multiset(log)[l] == |Filter(s.handlings, UpstreamCalls(l))|)
            && s.books.upstreams.admitted == SetOf(Winners(UpstreamLimits(setup), log))
            && forall l :: Get(s.books.upstreams.counts, l) + |Filter(s.handlings, UpstreamWaits(l))|
                           == Belonging(UpstreamLimits(setup), log, |log|, l)
  {
    var sites, upstreams := FamiliesAreRuns(setup, happenings);
    EveryInterleaving(UpstreamLimits(setup), upstreams);
    log := Run(UpstreamLimits(setup), upstreams).log;
  }

  lemma SitesInFlight(setup: Setup, happenings: seq<Happening>) returns (log: seq<Label<string>>)
    ensures var s := ServerAfter(setup, happenings);
            && (forall l :: multiset(log)[l] == |Filter(s.handlings, SiteCalls(setup, l))|)
            && s.books.sites.admitted == SetOf(Winners(SiteLimits(setup), log))
            && forall l :: Get(s.books.sites.counts, l) + |Filter(s.handlings, SiteWaits(l))|
                           == Belonging(SiteLimits(setup), log, |log|, l)
  {
    var sites, upstreams := FamiliesAreRuns(setup, happenings);
    EveryInterleaving(SiteLimits(setup), sites);
    log := Run(SiteLimits(setup), sites).log;
  }

  function Named(): string -> bool {
    (site: string) => site != "unknown" && site != "other"
  }

  /**
   At every instant "unknown" and "other" have no place, the places belong to the first `sitesMax` distinct
   other referers in some order of the calls made so far, and "unknown" and each referer with a place hold
   exactly their own calls but for those in flight.
   */
  lemma SitesInFlightExactly(setup: Setup, happenings: seq<Happening>) returns (log: seq<Label<string>>)
    ensures var s := ServerAfter(setup, happenings);
            var f := s.books.sites;
            && (forall l :: multiset(log)[l] == |Filter(s.handlings, SiteCalls(setup, l))|)
            && "unknown" !in f.admitted && "other" !in f.admitted
            && f.admitted == SetOf(FirstDistinct(Filter(Keys(log), Named()), setup.sitesMax))
            && forall site :: site == "unknown" || site in f.admitted ==>
                 var l := Label(site, "matched");
                 Get(f.counts, l) + |Filter(s.handlings, SiteWaits(l))| == |Filter(s.handlings, SiteCalls(setup, l))|
  {
    var s, limits := ServerAfter(setup, happenings), SiteLimits(setup);
    log := SitesInFlight(setup, happenings);
    ExemptHasNoPlace(limits, log);
    SameFilter(Keys(log), Bounded(limits), Named());
    forall site | site == "unknown" || site in s.books.sites.admitted
      ensures var l := Label(site, "matched");
              Get(s.books.sites.counts, l) + |Filter(s.handlings, SiteWaits(l))|
              == |Filter(s.handlings, SiteCalls(setup, l))|
    {
      OwnCalls(limits, log, |log|, Label(site, "matched"));
      assert log[..|log|] == log;
    }
  }

  // ---------------------------------------------------------------- one handler alone

  /** One handler's next step, on the books and its phase alone. */
  function NextAlone(setup: Setup, e: Event, m: Move): Move {
    Next(setup, m.books, Handling(e, m.phase))
  }

  function Alone(setup: Setup, e: Event, m: Move, steps: nat): Move {
    if steps == 0 then m else NextAlone(setup, e, Alone(setup, e, m, steps - 1))
  }

  lemma FiveSteps(setup: Setup, e: Event, b: Books)
    ensures Alone(setup, e, Move(b, Entered), 5) == Move(Account(setup, b, e), Finished)
  {
    var b1 := AfterRequest(setup, b, e.profile, e.result);
    var b2 := AfterSite(setup, b1, e.site, e.result);
    var m1 := Alone(setup, e, Move(b, Entered), 1);
    assert m1 == Move(b1, RequestCounted) by {
      assert Alone(setup, e, Move(b, Entered), 0) == Move(b, Entered);
    }
    var m2 := Alone(setup, e, Move(b, Entered), 2);
    assert m2 == NextAlone(setup, e, m1);
    var m3 := Alone(setup, e, Move(b, Entered), 3);
    assert m3 == NextAlone(setup, e, m2);
    var m4 := Alone(setup, e, Move(b, Entered), 4);
    assert m4 == NextAlone(setup, e, m3);
    assert Alone(setup, e, Move(b, Entered), 5) == NextAlone(setup, e, m4);
    SiteSteps(setup, e, b1);
    UpstreamSteps(setup, e, b2);
    assert m2 == Move(b2, SiteDone) || m3 == Move(b2, SiteDone);
  }

  lemma SiteSteps(setup: Setup, e: Event, b: Books)
    ensures var m := NextAlone(setup, e, Move(b, RequestCounted));
            var done := Move(AfterSite(setup, b, e.site, e.result), SiteDone);
            m == done || NextAlone(setup, e, m) == done
  {
  }

  lemma UpstreamSteps(setup: Setup, e: Event, b: Books)
    ensures var m := NextAlone(setup, e, Move(b, SiteDone));
            var done := Move(AfterUpstream(setup, b, e.host, e.path, e.result), Finished);
            (m == done || NextAlone(setup, e, m) == done) && NextAlone(setup, e, done) == done
  {
  }

  function Repeat(i: nat, steps: nat): seq<Happening> {
    if steps == 0 then [] else Repeat(i, steps - 1) + [Proceed(i)]
  }

  /** A step of the newest handler. */
  lemma NewestSteps(setup: Setup, happenings: seq<Happening>, older: seq<Handling>, e: Event, m: Move)
    requires ServerAfter(setup, happenings) == Server(m.books, older + [Handling(e, m.phase)])
    ensures var next := NextAlone(setup, e, m);
            ServerAfter(setup, happenings + [Proceed(|older|)]) == Server(next.books, older + [Handling(e, next.phase)])
  {
    var next := NextAlone(setup, e, m);
    ServerStep(setup, happenings, Proceed(|older|));
    assert (older + [Handling(e, m.phase)])[|older| := Handling(e, next.phase)] == older + [Handling(e, next.phase)];
  }

  /** Steps of the newest handler, with no other in between. */
  lemma {:induction false} NewestProceeds(
      setup: Setup, happenings: seq<Happening>, older: seq<Handling>, e: Event, m: Move, steps: nat)
    requires ServerAfter(setup, happenings) == Server(m.books, older + [Handling(e, m.phase)])
    ensures var last := Alone(setup, e, m, steps);
            ServerAfter(setup, happenings + Repeat(|older|, steps))
            == Server(last.books, older + [Handling(e, last.phase)])
  {
    if steps == 0 {
      assert happenings + Repeat(|older|, 0) == happenings;
    } else {
      var soFar := happenings + Repeat(|older|, steps - 1);
      NewestProceeds(setup, happenings, older, e, m, steps - 1);
      NewestSteps(setup, soFar, older, e, Alone(setup, e, m, steps - 1));
      assert happenings + Repeat(|older|, steps) == soFar + [Proceed(|older|)];
    }
  }

  /** A handler that nothing interrupts counts its request as the sequential books do. */
  lemma UninterruptedIsAccount(setup: Setup, happenings: seq<Happening>, e: Event)
    ensures var before := ServerAfter(setup, happenings);
            ServerAfter(setup, happenings + [Arrive(e)] + Repeat(|before.handlings|, 5))
            == Server(Account(setup, before.books, e), before.handlings + [Handling(e, Finished)])
  {
    var before := ServerAfter(setup, happenings);
    ServerStep(setup, happenings, Arrive(e));
    NewestProceeds(setup, happenings + [Arrive(e)], before.handlings, e, Move(before.books, Entered), 5);
    FiveSteps(setup, e, before.books);
  }
}
