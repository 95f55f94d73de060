/** From a request to a route, over routes that were sorted by the length of their prefix. */
module Routing {
  import opened Wrappers

  datatype Route = Route(name: string, prefix: string, hosts: seq<string>, paths: seq<string>, endpoints: seq<string>)

  datatype Request = Request(path: string, host: string, connect: bool)

  /** `filepath.Match` without its errors, and `path.Base`: code outside the repository. */
  datatype Globs = Globs(glob: (string, string) -> bool, base: string -> string)

  predicate MatchEndpoint(r: Route, endpoint: string) {
    r.endpoints == [] || endpoint in r.endpoints
  }

  predicate MatchPath(r: Route, req: Request, g: Globs) {
    exists i :: 0 <= i < |r.paths| && (g.glob(r.paths[i], req.path) || g.glob(r.paths[i], g.base(req.path)))
  }

  predicate Match(r: Route, req: Request, g: Globs) {
    || MatchPath(r, req, g)
    || (r.prefix != "" && r.prefix <= req.path)
    || (req.connect && r.prefix == "/")
    || exists i :: 0 <= i < |r.hosts| && g.glob(r.hosts[i], req.host)
  }

  /** Admissible at the endpoint, and matching by path. */
  predicate ByPath(r: Route, req: Request, endpoint: string, g: Globs) {
    MatchEndpoint(r, endpoint) && MatchPath(r, req, g)
  }

  predicate ByAny(r: Route, req: Request, endpoint: string, g: Globs) {
    MatchEndpoint(r, endpoint) && Match(r, req, g)
  }

  /** What a match is: by a path pattern, by a prefix that the path begins with, by the prefix "/" for a CONNECT, or
      by a host pattern. */
  lemma MatchIff(r: Route, req: Request, endpoint: string, g: Globs)
    ensures MatchEndpoint(r, endpoint) <==> |r.endpoints| == 0 || endpoint in r.endpoints
    ensures MatchPath(r, req, g) <==>
            exists p :: p in r.paths && (g.glob(p, req.path) || g.glob(p, g.base(req.path)))
    ensures Match(r, req, g) <==>
            || (exists p :: p in r.paths && (g.glob(p, req.path) || g.glob(p, g.base(req.path))))
            || (r.prefix != "" && exists rest :: req.path == r.prefix + rest)
            || (req.connect && r.prefix == "/")
            || (exists h :: h in r.hosts && g.glob(h, req.host))
  {
    if r.prefix <= req.path {
      assert req.path == r.prefix + req.path[|r.prefix|..];
    }
  }

  // ----- the match functions, as loops

  method MatchEndpointLoop(r: Route, endpoint: string) returns (ok: bool)
    ensures ok <==> MatchEndpoint(r, endpoint)
  {
    if |r.endpoints| == 0 {
      return true;
    }
    for i := 0 to |r.endpoints|
      invariant endpoint !in r.endpoints[..i]
    {
      if r.endpoints[i] == endpoint {
        return true;
      }
    }
    assert r.endpoints[..|r.endpoints|] == r.endpoints;
    return false;
  }

  method MatchPathLoop(r: Route, req: Request, g: Globs) returns (ok: bool)
    ensures ok <==> MatchPath(r, req, g)
  {
    for i := 0 to |r.paths|
      invariant forall k :: 0 <= k < i ==> !g.glob(r.paths[k], req.path) && !g.glob(r.paths[k], g.base(req.path))
    {
      if g.glob(r.paths[i], req.path) || g.glob(r.paths[i], g.base(req.path)) {
        return true;
      }
    }
    return false;
  }

  method MatchLoop(r: Route, req: Request, g: Globs) returns (ok: bool)
    ensures ok <==> Match(r, req, g)
  {
    var byPath := MatchPathLoop(r, req, g);
    if byPath {
      return true;
    }
    if r.prefix != "" && r.prefix <= req.path {
      return true;
    }
    if req.connect && r.prefix == "/" {
      return true;
    }
    for i := 0 to |r.hosts|
      invariant forall k :: 0 <= k < i ==> !g.glob(r.hosts[k], req.host)
    {
      if g.glob(r.hosts[i], req.host) {
        return true;
      }
    }
    return false;
  }

  /** The first route for which `p` holds. */
  ghost predicate IsFirst(routes: seq<Route>, p: Route -> bool, choice: Option<nat>) {
    match choice
    case None => forall i :: 0 <= i < |routes| ==> !p(routes[i])
    case Some(k) => k < |routes| && p(routes[k]) && forall i :: 0 <= i < k ==> !p(routes[i])
  }

  /** `routeFor`: first a pass over the paths, then a pass over everything. */
  method RouteFor(routes: seq<Route>, req: Request, endpoint: string, g: Globs) returns (choice: Option<nat>)
    ensures Routed(routes, req, endpoint, g, choice)
  {
    for i := 0 to |routes|
      invariant forall k :: 0 <= k < i ==> !ByPath(routes[k], req, endpoint, g)
    {
      var admissible := MatchEndpointLoop(routes[i], endpoint);
      if admissible {
        var ok := MatchPathLoop(routes[i], req, g);
        if ok {
          return Some(i);
        }
      }
    }
    for i := 0 to |routes|
      invariant forall k :: 0 <= k < |routes| ==> !ByPath(routes[k], req, endpoint, g)
      invariant forall k :: 0 <= k < i ==> !ByAny(routes[k], req, endpoint, g)
    {
      var admissible := MatchEndpointLoop(routes[i], endpoint);
      if admissible {
        var ok := MatchLoop(routes[i], req, g);
        if ok {
          return Some(i);
        }
      }
    }
    return None;
  }

  /** What the two passes find. */
  ghost predicate Routed(routes: seq<Route>, req: Request, endpoint: string, g: Globs, choice: Option<nat>) {
    if exists i :: 0 <= i < |routes| && ByPath(routes[i], req, endpoint, g)
    then IsFirst(routes, (r: Route) => ByPath(r, req, endpoint, g), choice)
    else IsFirst(routes, (r: Route) => ByAny(r, req, endpoint, g), choice)
  }

  // ----- any result of the sort

  ghost predicate Descending(routes: seq<Route>) {
    forall i, j :: 0 <= i < j < |routes| ==> |routes[i].prefix| >= |routes[j].prefix|
  }

  /** What `sort.Slice` promises of the configured routes: a permutation with longer prefixes first.  Routes
      with prefixes of one length may come in any order. */
  ghost predicate SortResult(configured: seq<Route>, routes: seq<Route>) {
    multiset(configured) == multiset(routes) && Descending(routes)
  }

  lemma SameMembers(a: seq<Route>, b: seq<Route>, r: Route)
    requires multiset(a) == multiset(b)
    ensures r in a <==> r in b
  {
    assert r in a <==> r in multiset(a);
    assert r in b <==> r in multiset(b);
  }

  /** The route is among the configured ones with `p`, and none of those has a longer prefix. */
  ghost predicate LongestWith(configured: seq<Route>, p: Route -> bool, r: Route) {
    r in configured && p(r) && forall q :: q in configured && p(q) ==> |q.prefix| <= |r.prefix|
  }

  lemma FirstIsLongest(configured: seq<Route>, routes: seq<Route>, p: Route -> bool, choice: Option<nat>)
    requires SortResult(configured, routes) && IsFirst(routes, p, choice)
    ensures choice.None? <==> forall r :: r in configured ==> !p(r)
    ensures choice.Some? ==> LongestWith(configured, p, routes[choice.value])
  {
    forall r ensures r in configured <==> r in routes {
      SameMembers(configured, routes, r);
    }
    if choice.Some? {
      forall q | q in configured && p(q) ensures |q.prefix| <= |routes[choice.value].prefix| {
        var j :| 0 <= j < |routes| && routes[j] == q;
        assert choice.value <= j;
      }
    }
  }

  /** For every result the sort may give: no route is chosen exactly when no admissible route matches; if an
      admissible route matches by path, the choice is one of those, with the longest prefix among them;
      otherwise it matches, with the longest prefix among all that match. */
  lemma RoutesTheLongestPrefix(configured: seq<Route>, routes: seq<Route>, req: Request, endpoint: string,
                               g: Globs, choice: Option<nat>)
    requires SortResult(configured, routes) && Routed(routes, req, endpoint, g, choice)
    ensures choice.None? <==> forall r :: r in configured ==> !ByAny(r, req, endpoint, g)
    ensures choice.Some? ==>
              choice.value < |routes| &&
              if exists r :: r in configured && ByPath(r, req, endpoint, g)
              then LongestWith(configured, (r: Route) => ByPath(r, req, endpoint, g), routes[choice.value])
              else LongestWith(configured, (r: Route) => ByAny(r, req, endpoint, g), routes[choice.value])
  {
    forall r ensures r in configured <==> r in routes {
      SameMembers(configured, routes, r);
    }
    if exists i :: 0 <= i < |routes| && ByPath(routes[i], req, endpoint, g) {
      var p := (r: Route) => ByPath(r, req, endpoint, g);
      FirstIsLongest(configured, routes, p, choice);
      var i :| 0 <= i < |routes| && ByPath(routes[i], req, endpoint, g);
      assert routes[i] in configured && ByAny(routes[i], req, endpoint, g);
    } else {
      var p := (r: Route) => ByAny(r, req, endpoint, g);
      FirstIsLongest(configured, routes, p, choice);
    }
  }

  /** So the order in which the sort leaves equal lengths cannot change whether a request is routed, nor the
      length of the prefix it is routed by. */
  lemma SortOrderKeepsLength(configured: seq<Route>, one: seq<Route>, two: seq<Route>, req: Request,
                             endpoint: string, g: Globs, a: Option<nat>, b: Option<nat>)
    requires SortResult(configured, one) && Routed(one, req, endpoint, g, a)
    requires SortResult(configured, two) && Routed(two, req, endpoint, g, b)
    ensures a.Some? <==> b.Some?
    ensures a.Some? ==> a.value < |one| && b.value < |two| && |one[a.value].prefix| == |two[b.value].prefix|
  {
    RoutesTheLongestPrefix(configured, one, req, endpoint, g, a);
    RoutesTheLongestPrefix(configured, two, req, endpoint, g, b);
  }

  // ----- when the sort cannot change the choice

  /** The test that decides: by path if any admissible route matches by path. */
  ghost predicate Decides(configured: seq<Route>, req: Request, endpoint: string, g: Globs, r: Route) {
    if exists q :: q in configured && ByPath(q, req, endpoint, g)
    then ByPath(r, req, endpoint, g)
    else ByAny(r, req, endpoint, g)
  }

  /** A route that matches with the longest prefix. */
  ghost predicate Best(configured: seq<Route>, req: Request, endpoint: string, g: Globs, r: Route) {
    && r in configured && Decides(configured, req, endpoint, g, r)
    && forall q :: q in configured && Decides(configured, req, endpoint, g, q) ==> |q.prefix| <= |r.prefix|
  }

  /** Past the routes with longer prefixes. */
  lemma {:induction false} Place(routes: seq<Route>, len: nat) returns (k: nat)
    requires Descending(routes)
    ensures k <= |routes|
    ensures forall i :: 0 <= i < |routes| ==> if i < k then |routes[i].prefix| > len else |routes[i].prefix| <= len
  {
    k := 0;
    if routes != [] && |routes[0].prefix| > len {
      k := Place(routes[1..], len);
      assert routes == [routes[0]] + routes[1..];
      k := k + 1;
    }
  }

  function Inserted(routes: seq<Route>, x: Route, k: nat): (out: seq<Route>)
    requires k <= |routes|
    ensures |out| == |routes| + 1
    ensures forall i :: 0 <= i < |out| ==> out[i] == if i < k then routes[i] else if i == k then x else routes[i - 1]
  {
    routes[..k] + [x] + routes[k..]
  }

  lemma InsertedHas(routes: seq<Route>, x: Route, k: nat)
    requires k <= |routes|
    ensures multiset(Inserted(routes, x, k)) == multiset(routes) + multiset{x}
  {
    assert routes == routes[..k] + routes[k..];
  }

  lemma InsertedDescends(routes: seq<Route>, x: Route, k: nat)
    requires Descending(routes) && k <= |routes|
    requires forall i :: 0 <= i < |routes| ==> if i < k then |routes[i].prefix| > |x.prefix| else |routes[i].prefix| <= |x.prefix|
    ensures Descending(Inserted(routes, x, k))
  {}

  lemma Insert(routes: seq<Route>, x: Route) returns (out: seq<Route>, k: nat)
    requires Descending(routes)
    ensures multiset(out) == multiset(routes) + multiset{x} && Descending(out)
    ensures k < |out| && out[k] == x && forall i :: 0 <= i < k ==> |out[i].prefix| > |x.prefix|
  {
    k := Place(routes, |x.prefix|);
    out := Inserted(routes, x, k);
    InsertedHas(routes, x, k);
    InsertedDescends(routes, x, k);
  }

  lemma {:induction false} SomeSort(configured: seq<Route>) returns (routes: seq<Route>)
    ensures SortResult(configured, routes)
  {
    routes := [];
    if configured != [] {
      var n := |configured| - 1;
      routes := SomeSort(configured[..n]);
      var k: nat;
      routes, k := Insert(routes, configured[n]);
      assert configured == configured[..n] + [configured[n]];
    }
  }

  /** The sort may leave any route before all others of its length. */
  lemma SortWithFirst(configured: seq<Route>, x: Route) returns (routes: seq<Route>, k: nat)
    requires x in configured
    ensures SortResult(configured, routes)
    ensures k < |routes| && routes[k] == x && forall i :: 0 <= i < k ==> |routes[i].prefix| > |x.prefix|
  {
    var j :| 0 <= j < |configured| && configured[j] == x;
    assert configured == configured[..j] + [x] + configured[j + 1..];
    var rest := SomeSort(configured[..j] + configured[j + 1..]);
    routes, k := Insert(rest, x);
  }

  /** Then that route is chosen, if it is one of the best. */
  lemma BestIsChosen(configured: seq<Route>, req: Request, endpoint: string, g: Globs, x: Route)
    returns (routes: seq<Route>, k: nat)
    requires Best(configured, req, endpoint, g, x)
    ensures SortResult(configured, routes) && Routed(routes, req, endpoint, g, Some(k))
    ensures k < |routes| && routes[k] == x
  {
    routes, k := SortWithFirst(configured, x);
    forall r ensures r in configured <==> r in routes {
      SameMembers(configured, routes, r);
    }
    forall i | 0 <= i < k ensures !Decides(configured, req, endpoint, g, routes[i]) {
      assert routes[i] in configured;
    }
  }

  lemma ChoiceIsBest(configured: seq<Route>, routes: seq<Route>, req: Request, endpoint: string, g: Globs, k: nat)
    requires SortResult(configured, routes) && Routed(routes, req, endpoint, g, Some(k))
    ensures k < |routes| && Best(configured, req, endpoint, g, routes[k])
  {
    RoutesTheLongestPrefix(configured, routes, req, endpoint, g, Some(k));
  }

  /** Some result of the sort gives the request this route. */
  ghost predicate MayChoose(configured: seq<Route>, req: Request, endpoint: string, g: Globs, r: Route) {
    exists routes, k: nat ::
      SortResult(configured, routes) && Routed(routes, req, endpoint, g, Some(k)) && k < |routes| && routes[k] == r
  }

  /** The routes that the unstable sort may leave a request with are exactly the best ones; so its route is
      settled if and only if one route is best. */
  lemma MayChooseIffBest(configured: seq<Route>, req: Request, endpoint: string, g: Globs, r: Route)
    ensures MayChoose(configured, req, endpoint, g, r) <==> Best(configured, req, endpoint, g, r)
  {
    if Best(configured, req, endpoint, g, r) {
      var routes, k := BestIsChosen(configured, req, endpoint, g, r);
    }
    if MayChoose(configured, req, endpoint, g, r) {
      var routes, k: nat :|
        SortResult(configured, routes) && Routed(routes, req, endpoint, g, Some(k)) && k < |routes| && routes[k] == r;
      ChoiceIsBest(configured, routes, req, endpoint, g, k);
    }
  }

  /** Two routes by host alone have prefixes of one length, none: as far as the documentation of the sort goes, a
      request for a host that both match may get either.  (Present Go sorts so short a slice by insertion, which
      keeps the order of the configuration.) */
  lemma HostRoutesDependOnSort(g: Globs, host: string)
    requires g.glob("*", host)
    ensures var a, b := Route("a", "", ["*"], [], []), Route("b", "", ["*"], [], []);
            var req := Request("/", host, false);
            MayChoose([a, b], req, "", g, a) && MayChoose([a, b], req, "", g, b)
  {
    var a, b := Route("a", "", ["*"], [], []), Route("b", "", ["*"], [], []);
    var req := Request("/", host, false);
    assert a.hosts[0] == b.hosts[0] == "*";
    MayChooseIffBest([a, b], req, "", g, a);
    MayChooseIffBest([a, b], req, "", g, b);
  }
}
