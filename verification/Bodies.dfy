/**
 Response bodies as Go slices: AppendJavaScript (internal/profile/profile.go) and Config.Routes
 (internal/config/config.go), with the backing arrays that routes can share.
 */
module Bodies {
  import opened Results
  import opened GoStrings
  import opened Profiles
  import opened Routing

  /** A slice: the first `len` elements of a backing array, whose length is the capacity. */
  datatype Slice = Slice(arr: array<Byte>, len: nat)

  type SliceRoute = Route<Slice>

  predicate WellFormed(s: Slice) {
    s.len <= s.arr.Length
  }

  /** The bytes a slice shows. */
  function View(s: Slice): Body
    requires WellFormed(s)
    reads s.arr
  {
    s.arr[..s.len]
  }

  /** Bytes written behind the first `len`, if there is room for all of them. */
  ghost predicate WroteBehind(before: Body, now: Body, len: nat, extra: Body) {
    && |now| == |before|
    && forall k :: 0 <= k < |now| ==>
         now[k] == if len + |extra| <= |now| && len <= k < len + |extra| then extra[k - len] else before[k]
  }

  /** Go's append: in place when the capacity allows, else into a new array. */
  method Append(s: Slice, extra: Body) returns (r: Slice)
    requires WellFormed(s)
    modifies s.arr
    ensures WellFormed(r) && View(r) == old(View(s)) + extra
    ensures r.arr == s.arr || fresh(r.arr)
    ensures WroteBehind(old(s.arr[..]), s.arr[..], s.len, extra)
  {
    var n := s.len + |extra|;
    if n <= s.arr.Length {
      forall k | 0 <= k < |extra| {
        s.arr[s.len + k] := extra[k];
      }
      r := Slice(s.arr, n);
    } else {
      var capacity: nat :| n <= capacity;
      var grown := new Byte[capacity](_ => 0);
      forall k | 0 <= k < n {
        grown[k] := if k < s.len then s.arr[k] else extra[k - s.len];
      }
      r := Slice(grown, n);
    }
  }

  predicate Contains(s: string, piece: string) {
    exists i :: 0 <= i <= |s| && piece <= s[i..]
  }

  predicate IsJavaScript(route: SliceRoute) {
    Contains(ToLower(route.contentType), "javascript")
  }

  function Arrays(routes: seq<SliceRoute>): set<array<Byte>> {
    set i | 0 <= i < |routes| :: routes[i].body.arr
  }

  /** Bodies are read from files into arrays of their own, so routes that share an array share the whole slice. */
  predicate Separate(routes: seq<SliceRoute>) {
    && (forall i :: 0 <= i < |routes| ==> WellFormed(routes[i].body))
    && forall i, j :: 0 <= i < |routes| && 0 <= j < |routes| && routes[i].body.arr == routes[j].body.arr
                      ==> routes[i].body == routes[j].body
  }

  /** An array that held `was` holds the same, except that room behind the first `len` bytes may hold the suffix. */
  ghost predicate OnlySuffixAdded(now: Body, was: Body, len: nat, suffix: Body) {
    && |now| == |was|
    && forall k :: 0 <= k < |now| ==> now[k] == was[k] || (len <= k < len + |suffix| && now[k] == suffix[k - len])
  }

  /** The bytes a route's body shows once JavaScript routes carry the suffix. */
  function WithSuffix(route: SliceRoute, shown: Body, suffix: Body): Body {
    if IsJavaScript(route) then shown + suffix else shown
  }

  ghost function Contents(routes: seq<SliceRoute>): seq<Body>
    reads Arrays(routes)
  {
    seq(|routes|, i requires 0 <= i < |routes| reads Arrays(routes) => routes[i].body.arr[..])
  }

  /** `to` is the route with the suffix appended where it belongs, in its own array or one outside `shared`. */
  ghost predicate Extended(from: SliceRoute, to: SliceRoute, was: Body, suffix: Body, shared: set<array<Byte>>)
    requires from.body.len <= |was|
    reads to.body.arr
  {
    && to == from.(body := to.body)
    && WellFormed(to.body)
    && (to.body.arr == from.body.arr || to.body.arr !in shared)
    && View(to.body) == WithSuffix(from, was[..from.body.len], suffix)
  }

  /** The first `n` routes are extended, and the arrays of all of them only gained suffixes. */
  ghost predicate Progress(
      given: seq<SliceRoute>, routes: seq<SliceRoute>, was: seq<Body>, suffix: Body, n: nat)
    requires Separate(given)
    reads Arrays(given), Arrays(routes)
  {
    && |routes| == |given| == |was| && n <= |given|
    && (forall j :: n <= j < |given| ==> routes[j] == given[j])
    && (forall j :: 0 <= j < |given| ==> OnlySuffixAdded(given[j].body.arr[..], was[j], given[j].body.len, suffix))
    && (forall j :: 0 <= j < n ==> Extended(given[j], routes[j], was[j], suffix, Arrays(given)))
  }

  /**
   Every JavaScript route ends up with its body followed by the suffix exactly once, all other
   routes and all other fields stay, and no byte any route showed before changes, even when routes
   share a backing array with room to spare.
   */
  method AppendJavaScript(router: Router<Slice>, suffix: Body)
    requires Separate(router.routes)
    modifies router, Arrays(router.routes)
    ensures Progress(old(router.routes), router.routes, old(Contents(router.routes)), suffix, |old(router.routes)|)
  {
    ghost var given, was := router.routes, Contents(router.routes);
    NothingDone(given, suffix);
    for i := 0 to |router.routes|
      invariant |router.routes| == |given|
      invariant Progress(given, router.routes, was, suffix, i)
    {
      if Contains(ToLower(router.routes[i].contentType), "javascript") {
        AppendAt(router, i, suffix, given, was);
      } else {
        SkippedAt(given, router.routes, was, suffix, i);
      }
    }
  }

  lemma NothingDone(given: seq<SliceRoute>, suffix: Body)
    requires Separate(given)
    ensures Progress(given, given, Contents(given), suffix, 0)
  {
  }

  /** A route that is no JavaScript is done as it stands. */
  lemma SkippedAt(given: seq<SliceRoute>, routes: seq<SliceRoute>, was: seq<Body>, suffix: Body, i: nat)
    requires Separate(given) && i < |given| && !IsJavaScript(given[i])
    requires Progress(given, routes, was, suffix, i)
    ensures Progress(given, routes, was, suffix, i + 1)
  {
    assert routes[i] == given[i];
    assert View(given[i].body) == was[i][..given[i].body.len];
  }

  method AppendAt(router: Router<Slice>, i: nat, suffix: Body, ghost given: seq<SliceRoute>, ghost was: seq<Body>)
    requires Separate(given) && i < |given|
    requires Progress(given, router.routes, was, suffix, i)
    requires IsJavaScript(given[i])
    modifies router, Arrays(given)
    ensures Progress(given, router.routes, was, suffix, i + 1)
  {
    var s := router.routes[i].body;
    var routes := router.routes;
    assert s == given[i].body && View(s) == was[i][..s.len];
    var grown := Append(s, suffix);
    ghost var shared := Arrays(given);
    forall j | 0 <= j < |given|
      ensures OnlySuffixAdded(given[j].body.arr[..], was[j], given[j].body.len, suffix)
    {
      if given[j].body.arr == s.arr {
        assert given[j].body == s;
        StillOnlySuffix(old(s.arr[..]), s.arr[..], was[j], s.len, suffix);
      }
    }
    forall j | 0 <= j < i ensures Extended(given[j], routes[j], was[j], suffix, shared) {
      if routes[j].body.arr == s.arr {
        SuffixAgain(old(s.arr[..]), s.arr[..], s.len, routes[j].body.len, suffix);
      }
    }
    router.routes := routes[i := routes[i].(body := grown)];
  }

  lemma StillOnlySuffix(before: Body, now: Body, was: Body, len: nat, suffix: Body)
    requires OnlySuffixAdded(before, was, len, suffix) && WroteBehind(before, now, len, suffix)
    ensures OnlySuffixAdded(now, was, len, suffix)
  {
  }

  /** Writing the suffix behind the first `len` bytes again leaves what carries it already as it was. */
  lemma SuffixAgain(was: Body, now: Body, len: nat, shownLen: nat, suffix: Body)
    requires len <= shownLen <= |was| && shownLen <= len + |suffix|
    requires was[len..shownLen] == suffix[..shownLen - len]
    requires WroteBehind(was, now, len, suffix)
    ensures now[..shownLen] == was[..shownLen]
  {
  }

  /** A route is JavaScript exactly when that word stands in its content type, in whatever case. */
  lemma JavaScriptExactly(route: SliceRoute)
    ensures IsJavaScript(route)
            <==> exists front, word, rest :: route.contentType == front + word + rest && Spells(word, "javascript")
  {
    if IsJavaScript(route) {
      var front, word, rest := FindWord(route.contentType, "javascript");
    }
    if front, word, rest :| route.contentType == front + word + rest && Spells(word, "javascript") {
      WordFound(front, word, rest, "javascript");
    }
  }

  lemma FindWord(s: string, piece: string) returns (front: string, word: string, rest: string)
    requires Contains(ToLower(s), piece)
    ensures s == front + word + rest && Spells(word, piece)
  {
    var i :| 0 <= i <= |ToLower(s)| && piece <= ToLower(s)[i..];
    front, word, rest := s[..i], s[i..i+|piece|], s[i+|piece|..];
    SliceSpells(s, i, piece);
  }

  lemma SliceSpells(s: string, i: nat, piece: string)
    requires i + |piece| <= |s| && piece <= ToLower(s)[i..]
    ensures Spells(s[i..i+|piece|], piece)
  {
    forall j | 0 <= j < |piece| ensures piece[j] == LowerChar(s[i+j]) {
      assert ToLower(s)[i..][j] == ToLower(s)[i+j];
    }
  }

  lemma WordFound(front: string, word: string, rest: string, piece: string)
    requires Spells(word, piece)
    ensures Contains(ToLower(front + word + rest), piece)
  {
    var low := ToLower(front + word + rest);
    LowerSpells(word, piece);
    assert low[|front|..] == piece + ToLower(rest);
  }

  predicate Known(items: map<string, Profile<Slice>>, enabled: seq<string>) {
    forall name :: name in enabled ==> name in items
  }

  function EnabledArrays(items: map<string, Profile<Slice>>, enabled: seq<string>): set<array<Byte>> {
    if Known(items, enabled) then Arrays(RoutesOf(items, enabled)) else {}
  }

  /** Config.Routes; `toast` is the suffix when the toast is enabled. */
  method Routes(items: map<string, Profile<Slice>>, enabled: seq<string>, toast: Option<Body>)
    returns (r: Result<Router<Slice>, RouterError>)
    requires Known(items, enabled) ==> Separate(RoutesOf(items, enabled))
    modifies EnabledArrays(items, enabled)
    ensures r.Ok? <==> Known(items, enabled)
    ensures r.Ok? ==> fresh(r.value)
    ensures r.Ok? && toast == None ==>
              && r.value.routes == RoutesOf(items, enabled)
              && Contents(r.value.routes) == old(Contents(RoutesOf(items, enabled)))
    ensures r.Ok? && toast.Some? ==>
              var given := RoutesOf(items, enabled);
              Progress(given, r.value.routes, old(Contents(given)), toast.value, |given|)
  {
    ghost var was := if Known(items, enabled) then Contents(RoutesOf(items, enabled)) else [];
    r := NewRouter(items, enabled);
    if r.Err? {
      return;
    }
    var router := r.value;
    ghost var given := RoutesOf(items, enabled);
    if toast == None {
      return;
    }
    assert Contents(given) == was;
    assert EnabledArrays(items, enabled) == Arrays(given);
    AppendJavaScript(router, toast.value);
  }

  lemma ShownBodies(given: seq<SliceRoute>, routes: seq<SliceRoute>, was: seq<Body>, suffix: Body)
    requires Separate(given) && Progress(given, routes, was, suffix, |given|)
    ensures forall i :: 0 <= i < |given| ==>
              && given[i].body.len <= |was[i]|
              && View(given[i].body) == was[i][..given[i].body.len]
              && WellFormed(routes[i].body)
              && View(routes[i].body) == WithSuffix(given[i], was[i][..given[i].body.len], suffix)
  {
  }

  /**
   What a finished router shows: every route with its own body, which the suffix follows once if it is
   JavaScript, and nothing else changed; and the profiles' own bodies still show what they showed.
   */
  lemma FinishedBodies(given: seq<SliceRoute>, routes: seq<SliceRoute>, was: seq<Body>, suffix: Body)
    requires Separate(given) && Progress(given, routes, was, suffix, |given|)
    ensures |routes| == |given|
    ensures forall i :: 0 <= i < |given| ==>
              && given[i].body.len <= |was[i]|
              && View(given[i].body) == was[i][..given[i].body.len]
              && WellFormed(routes[i].body) && routes[i] == given[i].(body := routes[i].body)
              && View(routes[i].body)
                 == was[i][..given[i].body.len] + if IsJavaScript(given[i]) then suffix else []
  {
    ShownBodies(given, routes, was, suffix);
  }

  /**
   Building the routes again from the same configuration gives the same bodies, each with the suffix
   once, and leaves the bodies of a router built before as they were.
   */
  method RoutesAgain(
      items: map<string, Profile<Slice>>, enabled: seq<string>, suffix: Body,
      first: Router<Slice>, ghost was: seq<Body>)
    returns (second: Router<Slice>)
    requires Known(items, enabled) && Separate(RoutesOf(items, enabled))
    requires Progress(RoutesOf(items, enabled), first.routes, was, suffix, |RoutesOf(items, enabled)|)
    modifies EnabledArrays(items, enabled)
    ensures |second.routes| == |first.routes|
    ensures forall i :: 0 <= i < |first.routes| ==>
              && WellFormed(first.routes[i].body) && WellFormed(second.routes[i].body)
              && View(second.routes[i].body) == View(first.routes[i].body) == old(View(first.routes[i].body))
  {
    ghost var given := RoutesOf(items, enabled);
    ghost var between, earlier := Contents(given), first.routes;
    ShownBodies(given, earlier, was, suffix);
    var two := Routes(items, enabled, Some(suffix));
    second := two.value;
    ShownBodies(given, second.routes, between, suffix);
    forall i | 0 <= i < |given| ensures View(earlier[i].body) == old(View(first.routes[i].body)) {
      var s := earlier[i].body;
      if s.arr == given[i].body.arr {
        KeepsSuffix(between[i], s.arr[..], given[i].body.len, s.len, suffix);
      }
    }
  }

  lemma KeepsSuffix(was: Body, now: Body, len: nat, shownLen: nat, suffix: Body)
    requires OnlySuffixAdded(now, was, len, suffix)
    requires len <= shownLen <= |was| && shownLen <= len + |suffix|
    requires was[len..shownLen] == suffix[..shownLen - len]
    ensures now[..shownLen] == was[..shownLen]
  {
  }
}
