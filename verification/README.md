# Verified model of the adblock recovery sink

The sink answers requests for a fixed list of ad-recovery hosts. It keeps a constrained certificate
authority, issues a leaf certificate for each name a client asks for, gates TLS and HTTP by host,
routes requests to profile responses and counts them with bounded label sets. This project models
those parts in Dafny and proves what they promise together:

- **The issuer** (`Issuing`, `LinkedList`, `CachingIssuer`, `CacheRuns`, `LeafRuns`, `FailingRuns`,
  `Loading`). A class holds a map into an explicit doubly linked ring. Its invariant says that map and
  list agree and that the cache is what the history of calls leaves behind. Over whole runs, failures
  included, the cached hosts are exactly what the recency discipline leaves; when a returned leaf is
  good for the client is known exactly; renewal happens exactly when it should; `Load` accepts what
  `Init` makes for the whole of its validity.
- **The host rules** (`PkiHosts`, `NameConstraints`, `PatternLists`, `Profiles`, `Config`, `Gates`,
  `Pipeline`). Five pieces of code answer "is this name ours?" in five forms over two normalisers.
  They are proved to agree, and to compose from the validated configuration to the router.
- **Dispatch and accounting** (`Routing`, `Serving`, `Counters`, `Metrics`, `InFlight`, `Bodies`). The router
  and the handler meet a declarative specification; the counters are right in every interleaving;
  the three counter families reconcile whenever no request is between its first count and its last;
  response bodies keep their bytes although routes share backing arrays.
- **Files and lists** (`InitFiles`, `CommaLists`). The file phase of `Init` is all or nothing on a disk
  where calls fail and others create files; comma lists round-trip.

`GoStrings`, `Seqs`, `Sorting`, `Certificates` and `Results` hold what these share. Conventions: strings
are ASCII; instants and durations are integer nanoseconds; certificates are data, and signing is a
parameter that may fail at each step that issuing a leaf can fail at; reading a certificate back keeps whole
seconds. A method that the source writes as a loop or an update in place is a method here, proved
against a function of its inputs or of the old state, and the lemmas are about that function. Lemmas
whose names end in `Exactly`, `Means` or `Because` say what such a function does in terms of its inputs
alone, with the source's own constants: characters, labels, instants and counts of requests.

Where the code does something else than one would expect, the model follows the code and a lemma
says exactly when it matters:

- The CA check tests a `*.` pattern with the single name `subdomain.` + base. Its answer is that for all
  names below the base exactly if `NameConstraints.ProbeDecides` holds or the probe is refused
  (`NameConstraints.ProbeAgreesExactly`); `NameConstraints.ProbeCanMislead` is a case where it is not,
  and `Loading.InitThenLoad` shows the one trace it leaves in `Load`.
- `profile.NormalizeHost` takes off one final dot only, so normalising twice can differ from once:
  `Profiles.NormalizeHostTwice` says when.
- A profile may hold a pattern with white space right behind `*.`. The issuer drops that space and the
  router does not, so the gate can let a name through that has no route:
  `Pipeline.GateLeadsToRoutesExactly` gives the exact condition for a host list,
  `Pipeline.EveryListLeadsToRoutes` for all of them, and `Pipeline.SpacedPatternEscapes` a whole
  deployment, for every exact name, in which it fails.
- A leaf validity below one second can yield leaves that are born expired:
  `LeafRuns.FreshLeavesCoverExactly`. The server itself always runs with seven days.
- A cached leaf is never checked against its start, so validity needs a clock that does not fall back
  more than five minutes: `LeafRuns.AnswersAreGoodExactly` gives the exact instant over runs,
  `FailingRuns.ClockFallsBack` a run that misses it.
- A failed renewal drops the cached leaf, and which requests fail depends on the cache size. A smaller
  cache therefore holds a prefix of a larger one on runs whose requests end alike in both, but not on
  all: `CacheRuns.OrderHoldsExactly` gives the exact condition, call by call, and
  `FailingRuns.SmallerCacheCanDiffer` a run that misses it.
- Requests are handled at the same time and each makes its counts one by one, so a scrape in between
  can see counter families that do not add up: `InFlight.ReconciledExactly` says when they do, and
  `InFlight.ImbalanceIsInFlight` by how much they do not.

## Model

| member | source | states |
|---|---|---|
| LinkedList.List.Remove | internal/pki/pki.go:375 | the ring stays well linked, and the list is the old one with that element taken out and the others in order |
| LinkedList.List.PushFront | internal/pki/pki.go:382 | the new element stands in front of the old list on a well-linked ring |
| LinkedList.List.MoveToFront | internal/pki/pki.go:372 | the element stands first and the others keep their order on a well-linked ring |
| LinkedList.List.Back | internal/pki/pki.go:385 | the last element, or none for an empty list |
| CachingIssuer.Issuer.GetCertificate | internal/pki/pki.go:351-390 | map and list agree, the cache is in bounds and is what the whole history of calls leaves behind, and the answer is the one the history determines |
| CachingIssuer.Issuer.CheckAndLookup | internal/pki/pki.go:351-390 | one call changes the cache and answers as the value-level step does, on success and on every error |
| CachingIssuer.Issuer.Find | internal/pki/pki.go:368-369 | a host is a map key exactly when the list holds it, and the map points at the element at its position |
| CachingIssuer.Issuer.Evict | internal/pki/pki.go:384-389 | the least recently used entry leaves both the list and the map |
| CachingIssuer.Issuer.CacheLen | internal/pki/pki.go:398-402 | the length of the cache after the history of calls, never above the cache size |
| CacheRuns.AfterSound | internal/pki/pki.go:368-389 | after any run no host is cached twice, every cached leaf names its host, and the cache size is respected |
| CacheRuns.CacheIsRecency | internal/pki/pki.go:368-389 | after any run, failures included, the cached hosts are exactly the recency list of its attempts: each takes its host out, and a success puts it in front and cuts the list off at the cache size |
| CacheRuns.CacheIsPrefixOfLive | internal/pki/pki.go:368-389 | after any run, failures included, the cached hosts are a prefix of the distinct hosts, newest first, whose latest attempt got a leaf, as long as the cache size allows but for the cached hosts whose renewal failed since the cache was last full |
| CacheRuns.FailuresAreForgotten | internal/pki/pki.go:368-389 | whatever came before, after attempts that succeed the cache starts with their distinct hosts, newest first, and holds nothing else once they fill it |
| CacheRuns.CacheIsNewestRequested | internal/pki/pki.go:368-389 | when signing works the cached hosts are exactly the first cacheSize distinct hosts of the request history read newest first |
| CacheRuns.SmallerCacheIsPrefix | internal/pki/pki.go:384-389 | on a run whose requests end alike with both cache sizes, the smaller cache holds a prefix of what the larger one holds |
| CacheRuns.WorkingRunsEndAlike | internal/pki/pki.go:384-389 | when signing works requests do end alike, so the smaller cache holds a prefix |
| CacheRuns.ServeKeepsOrderExactly | internal/pki/pki.go:351-390 | one call keeps the hosts of a smaller cache a prefix of those of a larger one if and only if the checks refuse it, signing works, the host is cached and not due in both or in neither, or it is not so in the smaller one, which holds no other host |
| CacheRuns.OrderHoldsExactly | internal/pki/pki.go:351-390 | over a run, failures included, the smaller cache holds a prefix all along if and only if every call meets that condition on the caches it finds |
| FailingRuns.SmallerCacheCanDiffer | internal/pki/pki.go:368-383 | a run with a failed signature on which the cache of size 1 is not a prefix of that of size 2 |
| CacheRuns.NeverExpiredWhenReady | internal/pki/pki.go:436-445 | behind the readiness check "issuer certificate has expired" cannot come up, and signing that works yields a leaf |
| LeafRuns.LeafLifetime | internal/pki/pki.go:436-460 | a leaf lives at least 300 s, ends no later than either issuer, and starts within a second of five minutes before its issue |
| LeafRuns.LeafEnds | internal/pki/pki.go:436-460 | a leaf starts at the last whole second five minutes before its issue, and ends at the last whole second within its validity and within both issuers' |
| LeafRuns.ReadyExactly | internal/pki/pki.go:481-489 | ready exactly inside both windows and before the expiry reported, with the error of the first window missed |
| LeafRuns.WhyRefused | internal/pki/pki.go:351-367 | which check a call fails, in their order, and with which error |
| LeafRuns.WhyNoLeaf | internal/pki/pki.go:431-479 | issuing fails with the error of the step that fails, and otherwise yields a leaf for the host |
| LeafRuns.ExpiredExactly | internal/pki/pki.go:436-445 | issuing itself refuses as expired, once a serial number is drawn, if and only if no time would be left |
| LeafRuns.HitHasTimeLeft | internal/pki/pki.go:491-497 | a leaf served from the cache has at least 100 s left |
| LeafRuns.HitCovers | internal/pki/pki.go:371-374 | a leaf served from the cache contains the current time exactly when the clock is not before the whole second of issue minus five minutes |
| LeafRuns.FreshLeavesCoverExactly | internal/pki/pki.go:436-460 | every leaf contains its own issuing instant if and only if the leaf validity is at least one second |
| LeafRuns.AnswerSource | internal/pki/pki.go:368-383 | a returned leaf was issued by this call, or by an earlier one and is not due for renewal |
| LeafRuns.AnswersAreGoodExactly | internal/pki/pki.go:351-390 | on every run and any clock, a returned leaf names the normalised SNI, is allowed, ends no later than both issuers and contains the current time if and only if the time is not before the whole second of its issue minus five minutes |
| LeafRuns.AnswersAreGood | internal/pki/pki.go:351-390 | so on a clock that never falls back more than five minutes every returned leaf is good |
| FailingRuns.ClockFallsBack | internal/pki/pki.go:368-374 | a run whose clock falls back by 302 seconds: the leaf it returns has not begun |
| LeafRuns.CachingRefinesCacheFree | internal/pki/pki.go:368-390 | the caching issuer fails only with the cache-free issuer's error and succeeds whenever that one does, for the same host |
| LeafRuns.DueExactly | internal/pki/pki.go:491-497 | for any leaf at any instant, renewal is due if and only if less than a third of the lifetime is left, in nanoseconds and with the saturation of 64-bit durations |
| LeafRuns.CachedAnswer | internal/pki/pki.go:368-379 | over runs, a cached host is answered its own leaf as long as a third of the lifetime is left, and from then on what issuing gives |
| LeafRuns.CachedAnswerExactly | internal/pki/pki.go:368-379 | so when the serial number drawn is new, the answer is the cached leaf if and only if it is not due |
| LeafRuns.FreshLeafIsHit | internal/pki/pki.go:491-497 | a leaf just issued serves the next request exactly when 150 s remain, up to half the instant's fraction of a second |
| LeafRuns.RenewalMonotone | internal/pki/pki.go:491-497 | once due for renewal, a leaf stays due |
| LeafRuns.LeafStays | internal/pki/pki.go:368-389 | until its leaf is due, a host that stays cached keeps getting this very leaf, whatever other hosts are asked for in between and however their requests end |
| LeafRuns.LeafStaysUntilDue | internal/pki/pki.go:368-374 | on a monotone clock it is enough that the last call comes before the renewal point |
| LeafRuns.LosesHostExactly | internal/pki/pki.go:371-389 | a call takes a host out of the cache if and only if the cache is full, the host is last and a host that is not cached gets a leaf, or the host's own leaf is due and its renewal fails |
| LeafRuns.StaysCachedExactly | internal/pki/pki.go:384-389 | until its leaf is due, a cached host stays cached over a run if and only if no call evicts it |
| LeafRuns.FewOthersKeepCached | internal/pki/pki.go:384-389 | from its last request on, while fewer than cacheSize other hosts are asked for, a host stays cached and every request for it returns the same leaf until that is due |
| Loading.Load | internal/pki/pki.go:241-324 | the issuer it returns is empty and valid with exactly the specified settings; every error is the specified one |
| Loading.CheckHosts | internal/pki/pki.go:287-294 | the refusal of the first host outside either certificate's constraints, root first |
| Loading.SplitPatterns | internal/pki/pki.go:303-311 | exact hosts and wildcard suffixes are separated, the suffixes in order |
| Loading.NamedIsCovered | internal/pki/pki.go:695-708 | the exact-set and suffix-list test answers as the pattern list does |
| Loading.NoRefusal | internal/pki/pki.go:287-294 | the host loop accepts exactly the lists all of whose patterns both certificates allow |
| Loading.LoadAcceptsExactly | internal/pki/pki.go:241-295 | Load succeeds iff the key fits, both certificates are CAs, the root signed the intermediate and outlives it, both are valid now, and every normalised pattern is inside both certificates' constraints |
| Loading.LoadReadsInOrder | internal/pki/pki.go:241-257 | the host list is looked at first, then the root, the intermediate and the key; the first that is bad decides the error |
| Loading.RejectsBecause | internal/pki/pki.go:258-286 | each error of the certificate checks means that its check is the first to fail |
| Loading.RefusesBecause | internal/pki/pki.go:287-294 | the host loop names the first pattern one of the certificates does not allow, and blames the root first |
| Loading.SettingsMeans | internal/pki/pki.go:295-324 | the issuer is loaded with the given options, or 256 cached leaves and seven days where they are not positive, and with the exact names and suffixes of the list |
| Loading.LoadAcceptsKept | internal/pki/pki.go:241-295 | whatever non-empty list FilterHosts keeps, Load normalises to itself and its host loop accepts |
| Loading.InitWindow | internal/pki/pki.go:114-166 | the intermediate never outlives the root, both start at the whole second of creation, and validities of a second or more make the window contain that instant |
| Loading.AuthorityMeans | internal/pki/pki.go:76-170 | keys, signatures, permitted names, and ends: the last whole seconds within the validities, ten and three years by default, the intermediate's also within the root's |
| Loading.InitSucceedsExactly | internal/pki/pki.go:68-72 | Init makes certificates if and only if the list is not empty, every host is accepted and no draw fails; they permit exactly the normal forms |
| Loading.InitPermits | internal/pki/pki.go:538-565 | what Init's certificates permit: patterns at or below an initial host, or whose probe is one |
| Loading.InitThenLoad | internal/pki/pki.go:241-294 | Load accepts what Init made at every instant of the window and no other, for exactly the lists at or below the initial hosts (or with a stray probe) |
| PkiHosts.NormalizeHostFixedPoints | internal/pki/pki.go:519-536 | the normaliser's results are exactly its fixed points, and it is idempotent on success |
| PkiHosts.ExactMeans | internal/pki/pki.go:519-536 | an exact name is at most 253 characters of labels between dots, each one to 63 small letters, digits and hyphens with no hyphen at its ends |
| PkiHosts.NormalizeHostExactly | internal/pki/pki.go:519-536 | a text is accepted as a name if and only if it is that exact name in letters of either case, with white space around it and at most one final dot |
| PkiHosts.NormalizeAnySpelling | internal/pki/pki.go:519-521 | every such spelling of an exact name is normalised to it |
| PkiHosts.NormalizePatternExactly | internal/pki/pki.go:730-740 | the same for patterns, with or without "*." in front |
| PkiHosts.NormalizePatternFixedPoints | internal/pki/pki.go:730-740 | the same for patterns: an exact name or "*." before one |
| PkiHosts.ExactChars | internal/pki/pki.go:524-534 | an exact name holds only lower-case letters, digits, hyphens and dots and does not end in a dot |
| PatternLists.NormalizeList | internal/pki/pki.go:710-728 | the loop returns the distinct normal forms in order of first occurrence, or the first entry's error |
| PatternLists.NormalizedListExactly | internal/pki/pki.go:499-517 | a list is accepted if and only if it is not empty and every entry is; it becomes the distinct normal forms in the order of first occurrence |
| PatternLists.NormalizedListFails | internal/pki/pki.go:499-517 | a refused list is empty or has the error of its first entry that is not accepted |
| PatternLists.NormalizedPatterns | internal/pki/pki.go:710-728 | a normalised list is non-empty, has no repeats, holds exactly the normal forms of its entries, and normalises to itself |
| PatternLists.FilterHosts | internal/pki/pki.go:326-349 | the loop splits the normalised list as specified |
| PatternLists.FilterHostsPartition | internal/pki/pki.go:339-348 | a partition decided by both certificates that keeps the order on both sides |
| PatternLists.FilterHostsIdempotent | internal/pki/pki.go:326-349 | filtering the kept half again keeps all of it |
| PatternLists.KeptIsNormal | internal/pki/pki.go:326-349 | the kept half has no repeats and is its own normal form |
| NameConstraints.UniformBelow | internal/pki/pki.go:559-565 | an entry not strictly below a base matches all names below the base or none |
| NameConstraints.EntryMatches | internal/pki/pki.go:559-565 | an entry in any case, with or without a final dot, matches its name and all names below; with a dot in front, only those below |
| NameConstraints.AllowedMeans | internal/pki/pki.go:538-557 | without entries everything is allowed, an excluded entry that matches forbids, and permitted entries require one that matches |
| NameConstraints.ProbeForAll | internal/pki/pki.go:742-747 | all names below a base are allowed if and only if the probe is and no excluded entry is strictly below and, if there are permitted entries, one is at or above the base |
| NameConstraints.ProbeAgreesExactly | internal/pki/pki.go:742-747 | the probe and the statement about all names below the base agree if and only if an allowed probe comes with those entries |
| NameConstraints.ProbeSuffices | internal/pki/pki.go:742-747 | without entries strictly below the base the one probe decides for all names below it |
| NameConstraints.ProbeCanMislead | internal/pki/pki.go:742-747 | a concrete certificate whose probe passes although a sibling name is refused |
| Profiles.PlainIsFixed | internal/profile/profile.go:226-237 | what the fixed points of NormalizeHost look like |
| Profiles.NormalizeHostExactly | internal/profile/profile.go:226-237 | a text is accepted as a host if and only if it writes that ASCII text: letters in either case, white space around, and one final dot taken off |
| Profiles.CoversExactly | internal/profile/profile.go:239-252 | a pattern covers itself and, from a label boundary on, what stands below its "*." |
| Profiles.ValidRouteHostExactly | internal/profile/profile.go:137-143 | which route patterns are valid, in terms of their characters |
| Profiles.ValidRouteExactly | internal/profile/profile.go:130-150 | which routes are valid: absolute path, status from 100 to 599, some hosts, all valid patterns, and some methods, all of the four known |
| Profiles.NormalizeHostTwice | internal/profile/profile.go:226-237 | normalising twice equals normalising once exactly unless the trimmed text ends in a dot after a dot or white space |
| Profiles.DottedHostIsNotStable | internal/profile/profile.go:226-237 | a concrete host that changes when normalised again |
| Profiles.CoverTransitive | internal/profile/profile.go:239-252 | what a covered wildcard covers is covered by the same pattern |
| Config.HostnamesAreFixedPoints | internal/config/config.go:316-338 | the hostnames accepted are the empty one and exactly the fixed points of the issuer's normaliser |
| Config.PassesExactly | internal/config/config.go:219-235 | a host passes if and only if it has a normal form that some route pattern covers, wildcards included |
| Config.ListPassesExactly | internal/config/config.go:216-235 | a list passes if and only if it is not empty and all its hosts do, and becomes their normal forms in order |
| Config.ListFailsBecause | internal/config/config.go:216-235 | why a list fails: it is empty, or by its first host that fails, with the error of that host |
| Config.PrerequisiteExactly | internal/config/config.go:191-201 | what is checked before the hosts, in order, and which unknown profile is named |
| Config.RoutePatternsAre | internal/config/config.go:202-210 | the derived hosts are those that some route of an enabled profile names |
| Config.Config.DeriveHosts | internal/config/config.go:202-215 | the derived list is ascending, without repeats, and holds exactly the hosts of the enabled profiles' routes |
| Config.Config.ValidateHosts | internal/config/config.go:190-235 | the verdict and the stored hosts, on success and on every error, for the configured or the derived list |
| Config.Config.NormalizeInPlace | internal/config/config.go:219-235 | the verdict of the first host that fails; every host before it holds its normal form, so does that one if it has one, and the rest is as it was |
| Config.CoveredIsFixed | internal/config/config.go:219-235 | a host that survives validation is a fixed point of NormalizeHost |
| Config.ValidateIdempotent | internal/config/config.go:219-235 | validating the validated list again changes nothing |
| Config.DerivedHostsPass | internal/config/config.go:202-235 | hosts derived from validated profiles always pass, unchanged |
| Gates.BuildHostSet | internal/sink/sink.go:113-122 | the set of normal forms of the hosts that have one |
| Gates.GateMeans | internal/sink/sink.go:113-133 | the gate holds the normal forms of the hosts and lets a host through if and only if one of them covers it |
| Gates.GateIsCoverage | internal/sink/sink.go:123-133 | on normal patterns the gate set is the list and the gate test is pattern coverage |
| Gates.NormalizersAgree | internal/profile/profile.go:226-237 | the two normalisers agree on every name the issuer accepts |
| Gates.GatesAgree | internal/pki/pki.go:695-708 | the issuer's list test equals the TLS gate, so it allows exactly what the gate and both certificates allow |
| Gates.GateAloneDecides | internal/pki/pki.go:695-708 | with no constraint entry strictly below a pattern, a loaded issuer allows exactly what the gate allows |
| Pipeline.EffectiveHosts | cmd/sink/main.go:73-82 | the filtered list, or an error when nothing is kept |
| Pipeline.NormalStaysProvided | internal/pki/pki.go:730-740 | a provided host stays provided in the issuer's normal form, if every route pattern does |
| Pipeline.GateLeadsToRoutesExactly | cmd/sink/main.go:156-185 | for the host list a deployment runs with, all hosts behind the gate have a route if and only if every host of the list that the CA keeps is provided in the issuer's normal form |
| Pipeline.EveryListLeadsToRoutes | cmd/sink/main.go:156-185 | for all validated host lists at once, if and only if every route pattern the CA keeps stays provided in the issuer's normal form |
| Pipeline.NoSpaceStaysProvided | internal/profile/profile.go:137-143 | route patterns without white space right behind "*." make every route pattern stay provided |
| Pipeline.SpacedPatternEscapes | cmd/sink/main.go:156-185 | for every exact name, a deployment whose one route pattern has a space behind "*.": it validates and is kept without the space, the condition fails, and a name that passes the gate built from it gets UnknownHost from the router |
| Pipeline.GatedRequestsAreKnown | internal/sink/sink.go:57-85 | with kept hosts that are provided, Match never answers UnknownHost behind the gate, so the handler's default arm is dead |
| Pipeline.GatedRequestsAreKnownExactly | internal/sink/sink.go:57-85 | the router knows every host behind the gate if and only if the kept hosts are provided |
| Pipeline.AdmittedPassesGate | internal/sink/sink.go:27-37 | a name the issuer would serve is never rejected as an unknown SNI |
| Pipeline.ServedNamesHaveRoutes | cmd/sink/main.go:156-185 | end to end: every SNI that obtains a leaf after any run passes the TLS gate, and the router knows its host for every method and path |
| Pipeline.WhoGetsALeaf | internal/pki/pki.go:351-390 | after any run and when signing works, a leaf goes to exactly the names the issuer can normalise that pass the gate and both certificates' constraints, while both certificates are valid |
| Pipeline.WhoGetsALeafByName | internal/pki/pki.go:351-390 | in terms of the text sent: it gets a leaf for a name if and only if it writes that exact name in whatever case, a configured pattern covers it, both certificates allow it and both are valid |
| Pipeline.FreshDeploymentServes | cmd/sink/main.go:125-185 | for every exact name and instant a new CA, a profile routing the name and a host list naming it validate, filter, load and serve that name |
| Routing.NewRouter | internal/profile/profile.go:152-162 | the routes of the enabled profiles in order, or the first name that is unknown |
| Routing.RoutesInOrder | internal/profile/profile.go:152-162 | the routes stand in the order in which their profiles are enabled |
| Routing.Router.Match | internal/profile/profile.go:164-190 | the two loops compute the specified answer |
| Routing.MatchMeaning | internal/profile/profile.go:164-190 | matched iff some route serves the request, by the earliest such; refused iff routes stand there but none serves; unknown path iff the host is covered elsewhere only |
| Routing.RefusedMethod | internal/profile/profile.go:174-183 | a refusal names the last route at the host and path, and no route there lists the method |
| Routing.UnknownMeansUncovered | internal/profile/profile.go:184-189 | UnknownHost exactly for hosts no route covers |
| Routing.CoveredByProfiles | internal/profile/profile.go:217-224 | the router knows a host exactly when an enabled profile does |
| Serving.TlsCertificate | internal/sink/sink.go:27-37 | a name outside the gate counts one unknown_sni and leaves the issuer alone; otherwise the issuer's answer is passed on and a failure counts as other |
| Serving.Handler.ServeHTTP | internal/sink/sink.go:52-87 | for requests handled one after the other: status, headers and body are the specified reply, exactly one event is counted, and the counter families reconcile after every request |
| Serving.Handler.RespondAllowed | internal/sink/sink.go:59-86 | the handler behind the gate, preflight branch included |
| Serving.RequestHostExactly | internal/sink/sink.go:134-144 | the request's host is the ASCII text its Host header writes, in whatever case and with or without a final dot |
| Serving.ServedReply | internal/sink/sink.go:73-83 | the first route that serves a request gives its status, headers, profile label and body, which only HEAD does not get |
| Serving.CountedMeaning | internal/sink/sink.go:101-104 | a request is counted with its site, host and path, under the name of its result |
| Serving.AllowReadsBack | internal/sink/sink.go:145-158 | the Allow header read as a comma list is the list of allowed methods |
| Serving.RouteHeadersMeaning | internal/sink/sink.go:89-100 | each route setting appears exactly when it is not empty, and nosniff always |
| Serving.Allow | internal/sink/sink.go:145-158 | the header is the joined list of allowed methods |
| Serving.AllowIsSortedMethods | internal/sink/sink.go:145-158 | Allow is a sorted permutation of the route's methods, plus OPTIONS exactly when CORS is set and it is absent |
| Serving.AllowOmitsRefused | internal/sink/sink.go:68-70 | a 405's Allow never lists the request's own method, nor does any route at that host and path |
| Serving.MatchedMeaning | internal/sink/sink.go:59-77 | counted as matched iff behind the gate a route serves the request or the last route there answers a preflight |
| Serving.RefusalMeaning | internal/sink/sink.go:57-86 | when exactly 421, 404, 204 and 405 are sent, with which headers and counted how |
| Serving.BodyMeaning | internal/sink/sink.go:71-80 | a body comes only from the earliest serving route, never for HEAD |
| Sorting.SortStringsSorts | internal/sink/sink.go:156 | sorting is ascending and neither adds nor loses anything |
| Sorting.LeqExactly | internal/sink/sink.go:156 | the order sorted by: a prefix first, else the first character that differs decides |
| Sorting.SortedUnique | internal/config/config.go:211-214 | the ascending arrangement is unique, so map iteration order does not matter |
| Counters.EveryInterleaving | internal/metrics/metrics.go:63-94 | in every interleaving the admitted keys are the first max distinct keys in lock order, and per label counted plus in-flight calls are exactly the calls that belong to it |
| Counters.AdmittedKeepsItsCalls | internal/metrics/metrics.go:83-93 | an admitted key never falls into other: all its calls are its own |
| Counters.NothingLost | internal/metrics/metrics.go:79-94 | counts plus in-flight calls equal the calls made |
| Counters.NothingLostPerResult | internal/metrics/metrics.go:79-94 | the same for each result: what is counted and what is in flight with it are the calls made with it |
| Counters.LabelsBounded | internal/metrics/metrics.go:68-93 | the number of labels stays within the places, the exempt keys and the results |
| Counters.SequentialCall | internal/metrics/metrics.go:79-94 | a call with nothing in between is one of the interleavings |
| Metrics.Metrics.Request | internal/metrics/metrics.go:51-62 | one count under the profile, or under unknown, and only for the four results |
| Metrics.Metrics.SiteRequest | internal/metrics/metrics.go:63-78 | one observation of the site family, only for matched requests and when enabled |
| Metrics.Metrics.UpstreamRequest | internal/metrics/metrics.go:79-94 | one observation of the upstream family, only for the four results |
| Metrics.Metrics.HandshakeFailure | internal/metrics/metrics.go:95-99 | one count for the two known reasons, nothing for others |
| Metrics.AlwaysReconciled | internal/metrics/metrics.go:51-94 | on every run of requests handled one after the other, per result, requests over profiles equal calls over upstreams, and sites sum to the matched requests when enabled, else to zero |
| InFlight.EveryHandlingCounted | internal/sink/sink.go:101-104 | in every interleaving of concurrent handlers, per result, the request family holds the handlers past its step, the upstream family the finished ones, the site family the matched ones past it |
| InFlight.ImbalanceIsInFlight | internal/sink/sink.go:101-104 | at every instant the request family is ahead of the upstream family by exactly the handlers between the two counts |
| InFlight.ReconciledExactly | internal/sink/sink.go:101-104 | in every interleaving the three families reconcile if and only if no handler is between its first count and its last |
| InFlight.HalfwayIsNotReconciled | internal/sink/sink.go:101-104 | one request in between is enough for them not to |
| InFlight.FamiliesAreRuns | internal/metrics/metrics.go:63-94 | however handlers interleave, each bounded family goes through one of its own interleavings, with the handlers' calls |
| InFlight.UpstreamsInFlight | internal/metrics/metrics.go:79-94 | at every instant the admitted upstreams are the first ones, and each counter lacks exactly its calls in flight |
| InFlight.SitesInFlight | internal/metrics/metrics.go:63-78 | the same for sites |
| InFlight.SitesInFlightExactly | internal/metrics/metrics.go:63-78 | at every instant "unknown" and "other" have no place, the places belong to the first distinct other referers called, and each of them and "unknown" holds exactly its own calls but for those in flight |
| InFlight.UninterruptedIsAccount | internal/sink/sink.go:101-104 | a handler that nothing interrupts counts as the sequential books do, and finishes |
| Metrics.RequestsCountEvents | internal/metrics/metrics.go:51-62 | each request counter holds exactly its events, and only known profiles or unknown are used |
| Metrics.RequestsExactly | internal/metrics/metrics.go:51-62 | each listed profile holds exactly its own requests for each of the four results, "unknown" those of all others, and nothing else is counted |
| Metrics.SitesExactly | internal/metrics/metrics.go:63-78 | "unknown" and "other" take no place, the first sitesMax distinct other referers of matched requests do; "unknown" and each referer with a place hold exactly their own matched requests, "other" the rest |
| Metrics.SitesDisabled | internal/metrics/metrics.go:64 | a site family that is not enabled stays empty |
| Metrics.UpstreamsExactly | internal/metrics/metrics.go:79-94 | the first upstreamsMax distinct pairs of host and path hold exactly their own requests for each of the four results, "other" the rest |
| Metrics.FailedAddsOne | internal/metrics/metrics.go:95-99 | one more failure for the reason, none for the others |
| Metrics.BooksAreRuns | internal/metrics/metrics.go:63-94 | handling requests one after the other is an interleaving with nothing left in flight |
| Metrics.UpstreamsCountEvents | internal/metrics/metrics.go:79-94 | each upstream counter holds exactly the calls that belong to it, and the admitted pairs are the first in order |
| Metrics.SitesCountEvents | internal/metrics/metrics.go:63-78 | the same for sites |
| Metrics.SiteLabelsBounded | internal/metrics/metrics.go:63-78 | at most sitesMax + 2 site labels in every interleaving |
| Metrics.UpstreamLabelsBounded | internal/metrics/metrics.go:79-94 | at most 4 * (upstreamsMax + 1) upstream labels in every interleaving |
| Bodies.Append | internal/profile/profile.go:210 | Go's append: in place when the capacity allows, else into a new array |
| Bodies.AppendJavaScript | internal/profile/profile.go:207-213 | JavaScript routes gain the suffix once, everything else stays, and arrays change only by the suffix behind a body |
| Bodies.JavaScriptExactly | internal/profile/profile.go:209 | the routes meant are those whose content type holds the word "javascript" in whatever case |
| Bodies.Routes | internal/config/config.go:248-270 | the router of the enabled profiles, with the suffix when the toast is on |
| Bodies.FinishedBodies | internal/config/config.go:248-270 | what the finished router shows, and that every profile body still shows its bytes |
| Bodies.RoutesAgain | internal/config/config.go:248-270 | building the routes again gives the same bodies and leaves an earlier router's bodies as they were |
| InitFiles.WriteNew | internal/pki/pki.go:671-686 | all of the file, or none of it if it can be removed; success and the files of others are exactly the specified ones |
| InitFiles.WriteAll | internal/pki/pki.go:90-100 | all new files with their data, or, if removals succeed, exactly the files of others; success and the files of others are exactly those that the run of failures and arrivals determines; a path that is taken or cannot be inspected stops the run before it writes |
| InitFiles.SucceedsExactly | internal/pki/pki.go:188-198 | the files are made if and only if for each of them no call fails and nobody has taken its path before it is opened |
| InitFiles.NothingInTheWay | internal/pki/pki.go:188-198 | so without failing calls and files of others at the paths, all are made |
| InitFiles.OthersStay | internal/pki/pki.go:188-198 | files of others are never changed or removed |
| InitFiles.ArrivalsStay | internal/pki/pki.go:188-198 | a file that others create at a free path while the run is under way is there at the end with what it held |
| InitFiles.CreateAll | internal/pki/pki.go:188-198 | the creating loop and its clean-up |
| CommaLists.CommaList | internal/config/config.go:293-305 | the trimmed non-empty parts between commas |
| CommaLists.ListHoldsItems | internal/config/config.go:293-305 | every item is trimmed, non-empty and comma-free |
| CommaLists.JoinThenList | internal/config/config.go:293-305 | every list of such items is recovered from its join, in order |
| CommaLists.PaddedJoinThenList | internal/config/config.go:293-305 | white space around the items makes no difference |
| CommaLists.SpacedJoinThenList | internal/config/config.go:293-305 | in particular items joined by a comma and a space are recovered |
| CommaLists.ListedExactly | internal/config/config.go:293-305 | what is listed is exactly the parts between commas without the white space around them, if anything is left |
| CommaLists.ListThenJoin | internal/config/config.go:293-305 | joining the output and parsing again returns the same list |

## Left out

- Non-ASCII text: case folding and white space are the ASCII ones; the check for characters above 127 is kept. So a path that decodes to invalid UTF-8, such as `/%ff`, is outside the model: the metrics library panics on it as a label value (internal/metrics/metrics.go:93) after the request family has counted (line 61), and the families then stay apart by that request.
- Cryptography, PEM and X.509 encoding, serial numbers and fingerprints: signing is a parameter that may fail, and parsing results are inputs.
- Loading.LoadAcceptsExactly: chain verification is reduced to the signer's key and the two validity windows, because certificates are data here; the path rules of X.509 are not modelled.
- Serving.Handler.ServeHTTP: the method handles one request at a time; requests handled at the same time are modelled by their counting steps in `InFlight`, without their replies, which do not depend on each other. What the HTTP library does with a status is not modelled either: it sends no body with 204 and 304, and treats 1xx other than 101 as informational, so a route with such a status answers otherwise than its status and body here.
- The issuer's mutex: calls are taken in lock order, since the source holds the lock throughout a call; `Ready` is its readiness check alone.
- A nil metrics receiver, the gauges for cache size and issuer expiry, and the debug log.
- Listening, TLS handshakes, HTTP parsing, splitting host and port, parsing the referer, shutdown: their results are inputs.
- Loading of configuration and profiles (flags, environment, YAML, body files and their path and size checks), and the address, log, limit and PKI-source checks of `Validate`.
- The option checks of `Init` before its host list is normalised, the directory it creates, and file modes.
- The toast script and its options: the suffix is a parameter.
- Enrolment pages, operations endpoints and the command line: they add no deep property.
