/** Longest-prefix routing (src/proxy/router.rs), the configuration checks it relies on (src/config/types.rs) and the
    pools its matches name (src/config_reload.rs). */
module Routing {
  import opened Bytes
  import Balancer

  const SLASH: Byte := 47

  datatype Route = Route(prefix: Data, backendId: Data, timeoutSecs: Option<nat>)

  type Backend = Balancer.Backend

  datatype Config = Config(backends: seq<Backend>, routes: seq<Route>, maxBackends: nat)

  /** The prefix starts the path and ends on a segment boundary of it. */
  predicate Matches(prefix: Data, path: Data) {
    prefix <= path
    && (|path| == |prefix| || (prefix != [] && prefix[|prefix| - 1] == SLASH) || path[|prefix|] == SLASH)
  }

  // ---- What a match means, by path segments ----

  /** One more byte: a slash starts a segment, anything else goes on with the last one. */
  function Extend(parts: seq<Data>, b: Byte): (r: seq<Data>)
    requires |parts| > 0
    ensures |r| > 0
  {
    if b == SLASH then parts + [[]] else parts[..|parts| - 1] + [parts[|parts| - 1] + [b]]
  }

  /** The segments between slashes; a path starting with a slash has an empty first segment. */
  function Split(s: Data): (r: seq<Data>)
    ensures |r| > 0
  {
    if s == [] then [[]] else Extend(Split(s[..|s| - 1]), s[|s| - 1])
  }

  lemma ExtendInjective(a: seq<Data>, b: seq<Data>, x: Byte, y: Byte)
    requires |a| > 0 && |b| > 0 && Extend(a, x) == Extend(b, y)
    ensures x == y && a == b
  {
    var r := Extend(a, x);
    var last := r[|r| - 1];
    assert last == [] <==> x == SLASH;
    assert last == [] <==> y == SLASH;
    if x == SLASH {
      assert a == r[..|r| - 1] == b;
    } else {
      assert x == last[|last| - 1] == y;
      assert a[|a| - 1] == last[..|last| - 1] == b[|b| - 1];
      assert a == a[..|a| - 1] + [a[|a| - 1]] && b == b[..|b| - 1] + [b[|b| - 1]];
      assert a[..|a| - 1] == r[..|r| - 1] == b[..|b| - 1];
    }
  }

  lemma {:induction false} SplitInjective(a: Data, b: Data)
    requires Split(a) == Split(b)
    ensures a == b
  {
    if a != [] && b != [] {
      ExtendInjective(Split(a[..|a| - 1]), Split(b[..|b| - 1]), a[|a| - 1], b[|b| - 1]);
      SplitInjective(a[..|a| - 1], b[..|b| - 1]);
      assert a == a[..|a| - 1] + [a[|a| - 1]] && b == b[..|b| - 1] + [b[|b| - 1]];
    } else if a != [] {
      ExtendIsMore(Split(a[..|a| - 1]), a[|a| - 1]);
    } else if b != [] {
      ExtendIsMore(Split(b[..|b| - 1]), b[|b| - 1]);
    }
  }

  lemma ExtendIsMore(parts: seq<Data>, x: Byte)
    requires |parts| > 0
    ensures Extend(parts, x) != [[]]
  {
    var r := Extend(parts, x);
    assert |r| > 1 || r[0] == parts[0] + [x];
  }

  /** A path with the segments of another, and more, goes on with a slash where the other ends. */
  lemma {:induction false} MoreSegmentsGoOn(stem: Data, path: Data)
    requires Split(stem) <= Split(path) && |Split(stem)| < |Split(path)|
    ensures stem + [SLASH] <= path
  {
    var front, last := path[..|path| - 1], path[|path| - 1];
    assert path == front + [last];
    if last == SLASH && |Split(stem)| == |Split(front)| {
      assert Split(stem) == Split(front);
      SplitInjective(stem, front);
    } else {
      assert Split(stem) <= Split(front);
      MoreSegmentsGoOn(stem, front);
    }
  }

  /** And a path that goes on with a slash where another ends has the segments of that one, and more. */
  lemma {:induction false} GoingOnAddsSegments(stem: Data, path: Data)
    requires stem + [SLASH] <= path
    ensures Split(stem) <= Split(path) && |Split(stem)| < |Split(path)|
  {
    var front, last := path[..|path| - 1], path[|path| - 1];
    if |path| == |stem| + 1 {
      assert front == stem;
    } else {
      assert stem + [SLASH] <= front;
      GoingOnAddsSegments(stem, front);
    }
  }

  /** A prefix without a trailing slash matches exactly the paths that begin with its segments, whole. */
  lemma MatchIsBySegments(prefix: Data, path: Data)
    requires prefix == [] || prefix[|prefix| - 1] != SLASH
    ensures Matches(prefix, path) <==> Split(prefix) <= Split(path)
  {
    assert Matches(prefix, path) <==> path == prefix || prefix + [SLASH] <= path;
    if prefix + [SLASH] <= path {
      GoingOnAddsSegments(prefix, path);
    } else if Split(prefix) == Split(path) {
      SplitInjective(prefix, path);
    } else if Split(prefix) <= Split(path) {
      MoreSegmentsGoOn(prefix, path);
    }
  }

  /** A prefix with a trailing slash matches exactly the paths with its segments and at least one more. */
  lemma TrailingSlashNeedsASegment(stem: Data, path: Data)
    ensures Matches(stem + [SLASH], path) <==> Split(stem) <= Split(path) && |Split(stem)| < |Split(path)|
  {
    if stem + [SLASH] <= path {
      GoingOnAddsSegments(stem, path);
    } else if Split(stem) <= Split(path) && |Split(stem)| < |Split(path)| {
      MoreSegmentsGoOn(stem, path);
    }
  }

  // ---- The router ----

  ghost predicate LongestFirst(routes: seq<Route>) {
    forall i, j :: 0 <= i < j < |routes| ==> |routes[i].prefix| >= |routes[j].prefix|
  }

  /** Where a route goes among routes in order: after all that are at least as long, which keeps equals in their
      order. */
  function Insert(routes: seq<Route>, r: Route): seq<Route> {
    if routes == [] || |routes[|routes| - 1].prefix| >= |r.prefix| then routes + [r]
    else Insert(routes[..|routes| - 1], r) + [routes[|routes| - 1]]
  }

  lemma {:induction false} InsertIsPermutation(routes: seq<Route>, r: Route)
    ensures multiset(Insert(routes, r)) == multiset(routes) + multiset{r}
  {
    if routes == [] || |routes[|routes| - 1].prefix| >= |r.prefix| {
    } else {
      InsertIsPermutation(routes[..|routes| - 1], r);
      assert routes == routes[..|routes| - 1] + [routes[|routes| - 1]];
    }
  }

  lemma {:induction false} InsertedAreLonger(routes: seq<Route>, r: Route, n: nat)
    requires |r.prefix| >= n && forall i :: 0 <= i < |routes| ==> |routes[i].prefix| >= n
    ensures forall i :: 0 <= i < |Insert(routes, r)| ==> |Insert(routes, r)[i].prefix| >= n
  {
    if routes == [] || |routes[|routes| - 1].prefix| >= |r.prefix| {
    } else {
      InsertedAreLonger(routes[..|routes| - 1], r, n);
    }
  }

  lemma {:induction false} InsertKeepsOrder(routes: seq<Route>, r: Route)
    requires LongestFirst(routes)
    ensures LongestFirst(Insert(routes, r))
  {
    if routes == [] || |routes[|routes| - 1].prefix| >= |r.prefix| {
    } else {
      var front, last := routes[..|routes| - 1], routes[|routes| - 1];
      InsertKeepsOrder(front, r);
      InsertedAreLonger(front, r, |last.prefix|);
    }
  }

  /** The routes whose prefix has a given length, in order. */
  function OfLength(routes: seq<Route>, n: nat): seq<Route> {
    if routes == [] then []
    else OfLength(routes[..|routes| - 1], n) + if |routes[|routes| - 1].prefix| == n then [routes[|routes| - 1]] else []
  }

  lemma OfLengthPush(routes: seq<Route>, r: Route, n: nat)
    ensures OfLength(routes + [r], n) == OfLength(routes, n) + if |r.prefix| == n then [r] else []
  {
    assert (routes + [r])[..|routes|] == routes;
  }

  lemma {:induction false} InsertIsStable(routes: seq<Route>, r: Route, n: nat)
    requires LongestFirst(routes)
    ensures OfLength(Insert(routes, r), n) == OfLength(routes, n) + if |r.prefix| == n then [r] else []
  {
    if routes == [] || |routes[|routes| - 1].prefix| >= |r.prefix| {
      OfLengthPush(routes, r, n);
    } else {
      var front, last := routes[..|routes| - 1], routes[|routes| - 1];
      InsertIsStable(front, r, n);
      OfLengthPush(Insert(front, r), last, n);
    }
  }

  /** The same routes, longest prefix first, routes of one length in the order they had. */
  ghost predicate SortedByLength(routes: seq<Route>, configured: seq<Route>) {
    && LongestFirst(routes)
    && multiset(routes) == multiset(configured)
    && forall n: nat :: OfLength(routes, n) == OfLength(configured, n)
  }

  method NewRouter(configured: seq<Route>) returns (routes: seq<Route>)
    ensures SortedByLength(routes, configured)
  {
    routes := [];
    for i := 0 to |configured|
      invariant SortedByLength(routes, configured[..i])
    {
      var r := configured[i];
      assert configured[..i + 1] == configured[..i] + [r];
      InsertKeepsOrder(routes, r);
      InsertIsPermutation(routes, r);
      forall n: nat ensures OfLength(Insert(routes, r), n) == OfLength(configured[..i + 1], n) {
        InsertIsStable(routes, r, n);
        OfLengthPush(configured[..i], r, n);
      }
      routes := Insert(routes, r);
    }
    assert configured[..|configured|] == configured;
  }

  /** The first route that matches. */
  function FirstMatch(routes: seq<Route>, path: Data): Option<Route> {
    if routes == [] then None
    else if Matches(routes[0].prefix, path) then Some(routes[0])
    else FirstMatch(routes[1..], path)
  }

  method MatchRoute(routes: seq<Route>, path: Data) returns (r: Option<Route>)
    ensures r == FirstMatch(routes, path)
  {
    for i := 0 to |routes|
      invariant FirstMatch(routes, path) == FirstMatch(routes[i..], path)
    {
      assert routes[i..][1..] == routes[i + 1..];
      if Matches(routes[i].prefix, path) {
        return Some(routes[i]);
      }
    }
    return None;
  }

  /** A configured route that matches, no other matching one being longer. */
  ghost predicate IsLongest(configured: seq<Route>, path: Data, r: Route) {
    && r in configured && Matches(r.prefix, path)
    && forall other :: other in configured && Matches(other.prefix, path) ==> |other.prefix| <= |r.prefix|
  }

  lemma {:induction false} FirstMatchIsLongest(routes: seq<Route>, path: Data)
    requires LongestFirst(routes)
    ensures var r := FirstMatch(routes, path);
            && (r.None? <==> forall other :: other in routes ==> !Matches(other.prefix, path))
            && (r.Some? ==> IsLongest(routes, path, r.value))
  {
    if routes == [] {
    } else {
      FirstMatchIsLongest(routes[1..], path);
      assert routes == [routes[0]] + routes[1..];
      forall other | other in routes[1..] ensures |other.prefix| <= |routes[0].prefix| {
        var i :| 0 <= i < |routes[1..]| && routes[1..][i] == other;
        assert routes[i + 1] == other;
      }
    }
  }

  lemma {:induction false} FirstMatchSkipsFront(routes: seq<Route>, r: Route, path: Data)
    ensures FirstMatch(routes + [r], path)
            == if FirstMatch(routes, path).Some? then FirstMatch(routes, path) else FirstMatch([r], path)
  {
    if routes == [] {
      assert routes + [r] == [r];
    } else {
      FirstMatchSkipsFront(routes[1..], r, path);
      assert (routes + [r])[1..] == routes[1..] + [r];
    }
  }

  /** The first match is also the first match among the routes of its length. */
  lemma {:induction false} FirstMatchOfItsLength(routes: seq<Route>, path: Data)
    requires LongestFirst(routes) && FirstMatch(routes, path).Some?
    ensures FirstMatch(OfLength(routes, |FirstMatch(routes, path).value.prefix|), path) == FirstMatch(routes, path)
  {
    var front, last := routes[..|routes| - 1], routes[|routes| - 1];
    assert routes == front + [last];
    FirstMatchSkipsFront(front, last, path);
    var n := |FirstMatch(routes, path).value.prefix|;
    if FirstMatch(front, path).Some? {
      FirstMatchOfItsLength(front, path);
      MatchInFront(OfLength(front, n), if |last.prefix| == n then [last] else [], path);
    } else {
      NoMatchOfLength(front, path, n);
      FirstMatchSkipsFront(OfLength(front, n), last, path);
    }
  }

  lemma MatchInFront(routes: seq<Route>, more: seq<Route>, path: Data)
    requires FirstMatch(routes, path).Some? && |more| <= 1
    ensures FirstMatch(routes + more, path) == FirstMatch(routes, path)
  {
    if more == [] {
      assert routes + more == routes;
    } else {
      assert more == [more[0]];
      FirstMatchSkipsFront(routes, more[0], path);
    }
  }

  lemma {:induction false} NoMatchOfLength(routes: seq<Route>, path: Data, n: nat)
    requires FirstMatch(routes, path).None?
    ensures FirstMatch(OfLength(routes, n), path).None?
  {
    if routes == [] {
    } else {
      var front, last := routes[..|routes| - 1], routes[|routes| - 1];
      assert routes == front + [last];
      FirstMatchSkipsFront(front, last, path);
      NoMatchOfLength(front, path, n);
      var same := OfLength(front, n);
      FirstMatchSkipsFront(same, last, path);
      assert same + [] == same;
    }
  }

  /** What validation guarantees of routes: rooted prefixes, no prefix twice, a pool behind each. */
  ghost predicate ValidRoutes(c: Config) {
    && (forall i :: 0 <= i < |c.routes| ==> c.routes[i].prefix != [] && c.routes[i].prefix[0] == SLASH)
    && DistinctPrefixes(c.routes)
    && (forall i :: 0 <= i < |c.routes| ==> HasPool(c.backends, c.routes[i].backendId))
  }

  ghost predicate DistinctPrefixes(routes: seq<Route>) {
    forall i, j :: 0 <= i < j < |routes| ==> routes[i].prefix != routes[j].prefix
  }

  predicate HasPool(backends: seq<Backend>, pool: Data) { exists b :: b in backends && b.pool == pool }

  /** With distinct prefixes only one route can be the longest match. */
  lemma LongestIsUnique(configured: seq<Route>, path: Data, r: Route, s: Route)
    requires DistinctPrefixes(configured) && IsLongest(configured, path, r) && IsLongest(configured, path, s)
    ensures r == s
  {
    assert r.prefix == path[..|r.prefix|] && s.prefix == path[..|s.prefix|];
  }

  /** For every configuration the router answers with the longest configured prefix ending on a segment boundary, the
      first one configured if a prefix is there twice, and with nothing only if no configured prefix matches. */
  lemma RoutingIsLongestPrefix(configured: seq<Route>, routes: seq<Route>, path: Data)
    requires SortedByLength(routes, configured)
    ensures FirstMatch(routes, path).None? <==> forall other :: other in configured ==> !Matches(other.prefix, path)
    ensures FirstMatch(routes, path).Some? ==>
              var r := FirstMatch(routes, path).value;
              IsLongest(configured, path, r) && FirstMatch(OfLength(configured, |r.prefix|), path) == Some(r)
  {
    SameMembers(routes, configured);
    FirstMatchIsLongest(routes, path);
    if FirstMatch(routes, path).Some? {
      FirstMatchOfItsLength(routes, path);
    }
  }

  /** With distinct prefixes, as validation demands, the order of the routes does not matter at all. */
  lemma RouteOrderDoesNotMatter(configured: seq<Route>, shuffled: seq<Route>, one: seq<Route>, other: seq<Route>,
                                path: Data)
    requires DistinctPrefixes(configured) && multiset(shuffled) == multiset(configured)
    requires SortedByLength(one, configured) && SortedByLength(other, shuffled)
    ensures FirstMatch(one, path) == FirstMatch(other, path)
  {
    RoutingIsLongestPrefix(configured, one, path);
    RoutingIsLongestPrefix(shuffled, other, path);
    SameMembers(shuffled, configured);
    if FirstMatch(one, path).Some? {
      LongestIsUnique(configured, path, FirstMatch(one, path).value, FirstMatch(other, path).value);
    }
  }

  lemma SameMembers<T>(a: seq<T>, b: seq<T>)
    requires multiset(a) == multiset(b)
    ensures forall x :: x in a <==> x in b
  {
    forall x ensures x in a <==> x in b {
      assert x in a <==> x in multiset(a);
      assert x in b <==> x in multiset(b);
    }
  }

  // ---- Validation ----

  datatype RouteError = NotRooted | DuplicatePrefix | NoSuchPool

  /** The first route in order that breaks a rule, and the first rule it breaks. */
  ghost predicate FirstViolation(c: Config, i: nat, e: RouteError) {
    && i < |c.routes| && ValidRoutes(c.(routes := c.routes[..i]))
    && var r := c.routes[i];
       var rooted := r.prefix != [] && r.prefix[0] == SLASH;
       var repeated := exists k :: 0 <= k < i && c.routes[k].prefix == r.prefix;
       match e
       case NotRooted => !rooted
       case DuplicatePrefix => rooted && repeated
       case NoSuchPool => rooted && !repeated && !HasPool(c.backends, r.backendId)
  }

  /** Accepts exactly the configurations whose routes are valid, and reports the first violation of any other. */
  method ValidateRoutes(c: Config) returns (error: Option<RouteError>)
    ensures error.None? <==> ValidRoutes(c)
    ensures error.Some? ==> exists i :: FirstViolation(c, i, error.value)
  {
    var pools := set b | b in c.backends :: b.pool;
    var seen: set<Data> := {};
    for i := 0 to |c.routes|
      invariant seen == set k | 0 <= k < i :: c.routes[k].prefix
      invariant ValidRoutes(c.(routes := c.routes[..i]))
    {
      var route := c.routes[i];
      if route.prefix == [] || route.prefix[0] != SLASH {
        assert FirstViolation(c, i, NotRooted);
        return Some(NotRooted);
      }
      if route.prefix in seen {
        assert FirstViolation(c, i, DuplicatePrefix);
        return Some(DuplicatePrefix);
      }
      seen := seen + {route.prefix};
      if route.backendId !in pools {
        assert FirstViolation(c, i, NoSuchPool);
        return Some(NoSuchPool);
      }
      assert c.routes[..i + 1] == c.routes[..i] + [route];
    }
    assert c.routes[..|c.routes|] == c.routes;
    return None;
  }

  ghost predicate DistinctIds(backends: seq<Backend>) {
    forall i, j :: 0 <= i < j < |backends| ==> backends[i].id != backends[j].id
  }

  method ValidateNoDuplicateBackendIds(backends: seq<Backend>) returns (ok: bool)
    ensures ok <==> DistinctIds(backends)
  {
    var seen: set<Data> := {};
    for i := 0 to |backends|
      invariant seen == set k | 0 <= k < i :: backends[k].id
      invariant DistinctIds(backends[..i])
    {
      if backends[i].id in seen {
        return false;
      }
      seen := seen + {backends[i].id};
    }
    assert backends[..|backends|] == backends;
    return true;
  }

  // ---- Pools ----

  const HARD_MAX_BACKENDS: nat := 256

  /** The backends of a pool, in configuration order. */
  function Members(backends: seq<Backend>, pool: Data): seq<Backend> {
    if backends == [] then []
    else Members(backends[..|backends| - 1], pool)
         + if backends[|backends| - 1].pool == pool then [backends[|backends| - 1]] else []
  }

  lemma {:induction false} MembersAreThePool(backends: seq<Backend>, pool: Data)
    ensures forall b :: b in Members(backends, pool) <==> b in backends && b.pool == pool
    ensures Members(backends, pool) != [] <==> HasPool(backends, pool)
  {
    if backends == [] {
    } else {
      var front, last := backends[..|backends| - 1], backends[|backends| - 1];
      assert backends == front + [last];
      MembersAreThePool(front, pool);
      if HasPool(backends, pool) {
        var b :| b in backends && b.pool == pool;
        assert b in Members(backends, pool);
      }
      if Members(backends, pool) != [] {
        assert Members(backends, pool)[0] in Members(backends, pool);
      }
    }
  }

  /** And each as often as it is configured. */
  lemma {:induction false} MembersAreAllOfThem(backends: seq<Backend>, pool: Data, b: Backend)
    ensures multiset(Members(backends, pool))[b] == if b.pool == pool then multiset(backends)[b] else 0
  {
    if backends == [] {
    } else {
      var front, last := backends[..|backends| - 1], backends[|backends| - 1];
      assert backends == front + [last];
      MembersAreAllOfThem(front, pool, b);
    }
  }

  predicate PoolFits(members: seq<Backend>, maxBackends: nat) {
    |members| <= maxBackends && |members| <= HARD_MAX_BACKENDS
  }

  ghost predicate PoolsFit(c: Config) {
    forall i :: 0 <= i < |c.routes| ==>
                  |Members(c.backends, c.routes[i].backendId)| <= c.maxBackends
                  && |Members(c.backends, c.routes[i].backendId)| <= 256
  }

  /** Builds the pool of every route that has backends; fails exactly when one of them is over a limit. */
  method BuildBackendPools(c: Config) returns (pools: Option<map<Data, seq<Backend>>>)
    ensures pools.Some? <==> PoolsFit(c)
    ensures pools.Some? ==>
              && (forall id :: id in pools.value ==> pools.value[id] == Members(c.backends, id) != [])
              && (forall i :: 0 <= i < |c.routes| && Members(c.backends, c.routes[i].backendId) != [] ==>
                    c.routes[i].backendId in pools.value)
  {
    var built: map<Data, seq<Backend>> := map[];
    for i := 0 to |c.routes|
      invariant forall id :: id in built ==>
                  built[id] == Members(c.backends, id) != [] && PoolFits(built[id], c.maxBackends)
      invariant forall k :: 0 <= k < i ==>
                  PoolFits(Members(c.backends, c.routes[k].backendId), c.maxBackends)
                  && (Members(c.backends, c.routes[k].backendId) != [] ==> c.routes[k].backendId in built)
    {
      var id := c.routes[i].backendId;
      if id in built {
        continue;
      }
      var members := FilterPool(c.backends, id);
      if members != [] {
        if |members| > c.maxBackends || |members| > HARD_MAX_BACKENDS {
          return None;
        }
        built := built[id := members];
      }
    }
    return Some(built);
  }

  method FilterPool(backends: seq<Backend>, pool: Data) returns (members: seq<Backend>)
    ensures members == Members(backends, pool)
  {
    members := [];
    for i := 0 to |backends|
      invariant members == Members(backends[..i], pool)
    {
      assert backends[..i + 1][..i] == backends[..i];
      if backends[i].pool == pool {
        members := members + [backends[i]];
      }
    }
    assert backends[..|backends|] == backends;
  }

  /** Validation, pool building and routing together: on a configuration that passes, whatever path is matched leads to
      a pool that is there, is not empty and holds exactly the backends configured for it. */
  method RouteToPool(c: Config, path: Data) returns (found: Option<(Route, seq<Backend>)>, rejected: bool)
    ensures rejected <==> !ValidRoutes(c) || !PoolsFit(c)
    ensures !rejected ==>
              && (found.None? <==> forall r :: r in c.routes ==> !Matches(r.prefix, path))
              && (found.Some? ==>
                    && IsLongest(c.routes, path, found.value.0)
                    && found.value.1 != []
                    && forall b :: b in found.value.1 <==> b in c.backends && b.pool == found.value.0.backendId)
  {
    var error := ValidateRoutes(c);
    var pools := BuildBackendPools(c);
    if error.Some? || pools.None? {
      return None, true;
    }
    var routes := NewRouter(c.routes);
    var r := MatchRoute(routes, path);
    RoutingIsLongestPrefix(c.routes, routes, path);
    if r.None? {
      return None, false;
    }
    MembersAreThePool(c.backends, r.value.backendId);
    ghost var i :| 0 <= i < |c.routes| && c.routes[i] == r.value;
    assert HasPool(c.backends, c.routes[i].backendId);
    return Some((r.value, pools.value[r.value.backendId])), false;
  }
}
