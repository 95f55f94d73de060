/** The address, name and reference checks of `Validate`, and what the route builder may rely on. */
module Validate {
  import opened Decimal
  import opened Wrappers

  datatype Listener = Listener(name: string, kind: string, address: string)
  datatype Service = Service(name: string, backends: seq<string>)
  datatype Route = Route(name: string, service: string, backends: seq<string>, endpoints: seq<string>)
  datatype Config = Config(listeners: seq<Listener>, services: seq<Service>, routes: seq<Route>,
                           adminEnabled: bool, adminAddress: string)

  /** What `validateNetworkAddress` makes of an address: the host in normal form, with `*` for any. */
  datatype Endpoint = Endpoint(host: string, port: nat)
  type Resolver = string -> Option<Endpoint>

  predicate HostsConflict(a: string, b: string) {
    a == b || a == "*" || b == "*"
  }

  function Network(kind: string): string {
    if kind == "http3" then "udp" else if kind == "unix" || kind == "unix_tcp" then "unix" else "tcp"
  }

  // ----- map keys are joined with bars, and split again

  function Key(network: string, e: Endpoint): string {
    network + "|" + e.host + "|" + Itoa(e.port)
  }

  function CutBar(s: string): Option<(string, string)> {
    if s == "" then None
    else if s[0] == '|' then Some(("", s[1..]))
    else match CutBar(s[1..])
      case None => None
      case Some((a, b)) => Some(([s[0]] + a, b))
  }

  /** `strings.SplitN(s, "|", 3)`. */
  function SplitN3(s: string): seq<string> {
    match CutBar(s)
    case None => [s]
    case Some((a, b)) =>
      match CutBar(b)
      case None => [a, b]
      case Some((c, d)) => [a, c, d]
  }

  /** The test on an existing key, for a new listener. */
  predicate KeyConflicts(key: string, network: string, e: Endpoint) {
    var parts := SplitN3(key);
    |parts| == 3 && parts[0] == network && parts[2] == Itoa(e.port) && HostsConflict(e.host, parts[1])
  }

  lemma {:induction false} CutBarFirst(a: string, b: string)
    requires '|' !in a
    ensures CutBar(a + "|" + b) == Some((a, b))
  {
    var s := a + "|" + b;
    if a == "" {
      assert s[1..] == b;
    } else {
      CutBarFirst(a[1..], b);
      assert s[1..] == a[1..] + "|" + b;
      assert [a[0]] + a[1..] == a;
    }
  }

  /** When the first part has a bar, the cut leaves one in what follows. */
  lemma {:induction false} CutBarInside(a: string, b: string)
    requires '|' in a
    ensures var r := CutBar(a + "|" + b); r.Some? && '|' in r.value.1
  {
    var s := a + "|" + b;
    if a[0] == '|' {
      assert s[1..] == a[1..] + "|" + b;
      assert (a[1..] + "|" + b)[|a| - 1] == '|';
    } else {
      assert a == [a[0]] + a[1..];
      CutBarInside(a[1..], b);
      assert s[1..] == a[1..] + "|" + b;
    }
  }

  lemma ItoaInjective(m: nat, n: nat)
    requires Itoa(m) == Itoa(n)
    ensures m == n
  {
    DigitsOfItoa(m);
    DigitsOfItoa(n);
  }

  lemma ItoaHasNoBar(n: nat)
    ensures '|' !in Itoa(n)
  {
    var s := Itoa(n);
    assert forall i :: 0 <= i < |s| ==> IsDigit(s[i]);
  }

  /** The test sees an earlier listener exactly when it is on the same network and port, its host has no
      bar in it, and the hosts conflict. */
  lemma KeyConflictsIff(earlier: string, o: Endpoint, network: string, e: Endpoint)
    requires '|' !in earlier
    ensures KeyConflicts(Key(earlier, o), network, e) <==>
            earlier == network && o.port == e.port && '|' !in o.host && HostsConflict(e.host, o.host)
  {
    var port := Itoa(o.port);
    ItoaHasNoBar(e.port);
    CutBarFirst(earlier, o.host + "|" + port);
    assert Key(earlier, o) == earlier + "|" + (o.host + "|" + port);
    if '|' in o.host {
      CutBarInside(o.host, port);
    } else {
      CutBarFirst(o.host, port);
      if port == Itoa(e.port) {
        ItoaInjective(o.port, e.port);
      }
    }
  }

  /** A socket path is never taken for an address, bars or not. */
  lemma UnixKeyNeverConflicts(path: string, network: string, e: Endpoint)
    requires network != "unix"
    ensures !KeyConflicts("unix|" + path, network, e)
  {
    assert "unix|" + path == "unix" + "|" + path;
    CutBarFirst("unix", path);
  }

  // ----- what is accepted

  /** The endpoint that counts for conflicts: of a network listener, on a port that is not zero. */
  function Bound(l: Listener, net: Resolver): Option<Endpoint> {
    if l.address == "" || Network(l.kind) == "unix" || net(l.address).None? || net(l.address).value.port == 0 then None
    else net(l.address)
  }

  /** Two listeners would bind the same place. */
  predicate Collide(a: Listener, b: Listener, net: Resolver) {
    && Bound(a, net).Some? && Bound(b, net).Some?
    && Network(a.kind) == Network(b.kind)
    && Bound(a, net).value.port == Bound(b, net).value.port
    && HostsConflict(Bound(b, net).value.host, Bound(a, net).value.host)
  }

  /** The earlier one of them is filed under a key that splits back into its parts. */
  predicate Visible(a: Listener, net: Resolver) {
    Bound(a, net).Some? && '|' !in Bound(a, net).value.host
  }

  predicate SamePath(a: Listener, b: Listener) {
    Network(a.kind) == "unix" && Network(b.kind) == "unix" && a.address == b.address
  }

  predicate AddressOk(ls: seq<Listener>, i: nat, net: Resolver)
    requires i < |ls|
  {
    && ls[i].address != ""
    && (Network(ls[i].kind) != "unix" ==> net(ls[i].address).Some?)
    && forall j :: 0 <= j < i ==> !SamePath(ls[j], ls[i]) && !(Visible(ls[j], net) && Collide(ls[j], ls[i], net))
  }

  predicate AddressesOk(ls: seq<Listener>, net: Resolver) {
    forall i :: 0 <= i < |ls| ==> AddressOk(ls, i, net)
  }

  /** The administration address, which is checked against the tcp listeners. */
  function AdminListener(cfg: Config): Listener {
    Listener("admin", "http", cfg.adminAddress)
  }

  predicate AdminOk(cfg: Config, net: Resolver) {
    cfg.adminEnabled ==>
      && cfg.adminAddress != "" && net(cfg.adminAddress).Some?
      && forall j :: 0 <= j < |cfg.listeners| ==>
           !(Visible(cfg.listeners[j], net) && Collide(cfg.listeners[j], AdminListener(cfg), net))
  }

  predicate NamesOk(names: seq<string>) {
    forall i :: 0 <= i < |names| ==> names[i] != "" && forall j :: 0 <= j < i ==> names[j] != names[i]
  }

  function ListenerNames(cfg: Config): seq<string> {
    seq(|cfg.listeners|, i requires 0 <= i < |cfg.listeners| => cfg.listeners[i].name)
  }

  function ServiceNames(cfg: Config): seq<string> {
    seq(|cfg.services|, i requires 0 <= i < |cfg.services| => cfg.services[i].name)
  }

  function RouteNames(cfg: Config): seq<string> {
    seq(|cfg.routes|, i requires 0 <= i < |cfg.routes| => cfg.routes[i].name)
  }

  predicate RouteOk(r: Route, listeners: seq<string>, services: seq<string>) {
    && (forall e :: e in r.endpoints ==> e in listeners)
    && (if r.service == "" then r.backends != [] else r.service in services && r.backends == [])
  }

  predicate Accepts(cfg: Config, net: Resolver) {
    && NamesOk(ListenerNames(cfg)) && NamesOk(ServiceNames(cfg)) && NamesOk(RouteNames(cfg))
    && AddressesOk(cfg.listeners, net) && AdminOk(cfg, net)
    && (forall i :: 0 <= i < |cfg.services| ==> cfg.services[i].backends != [])
    && (forall i :: 0 <= i < |cfg.routes| ==> RouteOk(cfg.routes[i], ListenerNames(cfg), ServiceNames(cfg)))
  }

  // ----- the code

  type Addresses = map<string, seq<string>>

  /** The key under which a listener is filed, if it is. */
  function Filed(l: Listener, net: Resolver): Option<string> {
    if l.address == "" then None
    else if Network(l.kind) == "unix" then Some("unix|" + l.address)
    else if Bound(l, net).Some? then Some(Key(Network(l.kind), Bound(l, net).value))
    else None
  }

  /** The keys under which the first `n` listeners are filed. */
  ghost function FiledKeys(ls: seq<Listener>, n: nat, net: Resolver): set<string>
    requires n <= |ls|
  {
    if n == 0 then {}
    else
      FiledKeys(ls, n - 1, net) + (if Filed(ls[n - 1], net).Some? then {Filed(ls[n - 1], net).value} else {})
  }

  lemma {:induction false} FiledThere(ls: seq<Listener>, n: nat, net: Resolver, j: nat)
    requires j < n <= |ls| && Filed(ls[j], net).Some?
    ensures Filed(ls[j], net).value in FiledKeys(ls, n, net)
  {
    if j < n - 1 {
      FiledThere(ls, n - 1, net, j);
    }
  }

  lemma {:induction false} FiledFrom(ls: seq<Listener>, n: nat, net: Resolver, k: string) returns (j: nat)
    requires n <= |ls| && k in FiledKeys(ls, n, net)
    ensures j < n && Filed(ls[j], net) == Some(k)
  {
    if Filed(ls[n - 1], net) == Some(k) {
      j := n - 1;
    } else {
      j := FiledFrom(ls, n - 1, net, k);
    }
  }

  /** The key of a listener gives it away exactly when it is visible. */
  lemma FiledConflictsIff(a: Listener, b: Listener, net: Resolver)
    requires Bound(b, net).Some?
    ensures Filed(a, net).Some? && KeyConflicts(Filed(a, net).value, Network(b.kind), Bound(b, net).value) <==>
            Visible(a, net) && Collide(a, b, net)
  {
    var e := Bound(b, net).value;
    if a.address == "" {
    } else if Network(a.kind) == "unix" {
      UnixKeyNeverConflicts(a.address, Network(b.kind), e);
    } else if Bound(a, net).Some? {
      KeyConflictsIff(Network(a.kind), Bound(a, net).value, Network(b.kind), e);
    }
  }

  /** Some key conflicts with a new listener exactly when some earlier, visible listener collides with it. */
  lemma ConflictIsEarlier(seen: Addresses, ls: seq<Listener>, n: nat, l: Listener, net: Resolver)
    requires n <= |ls| && seen.Keys == FiledKeys(ls, n, net) && Bound(l, net).Some?
    ensures (exists k :: k in seen && KeyConflicts(k, Network(l.kind), Bound(l, net).value)) <==>
            (exists j :: 0 <= j < n && Visible(ls[j], net) && Collide(ls[j], l, net))
  {
    var network, e := Network(l.kind), Bound(l, net).value;
    if k :| k in seen && KeyConflicts(k, network, e) {
      var j := FiledFrom(ls, n, net, k);
      FiledConflictsIff(ls[j], l, net);
    }
    if j :| 0 <= j < n && Visible(ls[j], net) && Collide(ls[j], l, net) {
      FiledConflictsIff(ls[j], l, net);
      FiledThere(ls, n, net, j);
    }
  }

  /** Looks through the keys in whatever order the map yields them. */
  method FindConflict(seen: Addresses, network: string, e: Endpoint) returns (found: bool)
    ensures found <==> exists k :: k in seen && KeyConflicts(k, network, e)
  {
    var todo := seen.Keys;
    while todo != {}
      invariant todo <= seen.Keys
      invariant forall k :: k in seen && k !in todo ==> !KeyConflicts(k, network, e)
      decreases todo
    {
      var key :| key in todo;
      var parts := SplitN3(key);
      if |parts| == 3 && parts[0] == network && parts[2] == Itoa(e.port) && HostsConflict(e.host, parts[1]) {
        return true;
      }
      todo := todo - {key};
    }
    return false;
  }

  method CheckAddresses(ls: seq<Listener>, net: Resolver) returns (problems: nat, seen: Addresses)
    ensures problems == 0 <==> AddressesOk(ls, net)
    ensures seen.Keys == FiledKeys(ls, |ls|, net)
  {
    problems, seen := 0, map[];
    for i := 0 to |ls|
      invariant problems == 0 <==> forall k :: 0 <= k < i ==> AddressOk(ls, k, net)
      invariant seen.Keys == FiledKeys(ls, i, net)
    {
      var bad;
      bad, seen := CheckAddress(ls, i, net, seen);
      if bad {
        problems := problems + 1;
      }
    }
  }

  method CheckAddress(ls: seq<Listener>, i: nat, net: Resolver, seen: Addresses) returns (bad: bool, seen': Addresses)
    requires i < |ls| && seen.Keys == FiledKeys(ls, i, net)
    ensures bad <==> !AddressOk(ls, i, net)
    ensures seen'.Keys == FiledKeys(ls, i + 1, net)
  {
    var l := ls[i];
    if l.address == "" {
      return true, seen;
    }
    if Network(l.kind) == "unix" {
      bad, seen' := CheckPath(ls, i, net, seen);
      return;
    }
    if net(l.address).None? || net(l.address).value.port == 0 {
      return net(l.address).None?, seen;
    }
    bad, seen' := CheckEndpoint(ls, i, net, seen);
  }

  lemma PathOk(ls: seq<Listener>, i: nat, net: Resolver)
    requires i < |ls| && ls[i].address != "" && Network(ls[i].kind) == "unix"
    ensures AddressOk(ls, i, net) <==> ("unix|" + ls[i].address) !in FiledKeys(ls, i, net)
  {
    var key := "unix|" + ls[i].address;
    if key in FiledKeys(ls, i, net) {
      var j := FiledFrom(ls, i, net, key);
      UnixKeyIff(ls[j], ls[i].address, net);
      assert SamePath(ls[j], ls[i]);
    }
    forall j | 0 <= j < i && SamePath(ls[j], ls[i]) ensures key in FiledKeys(ls, i, net) {
      UnixKeyIff(ls[j], ls[i].address, net);
      FiledThere(ls, i, net, j);
    }
  }

  method CheckPath(ls: seq<Listener>, i: nat, net: Resolver, seen: Addresses) returns (bad: bool, seen': Addresses)
    requires i < |ls| && seen.Keys == FiledKeys(ls, i, net) && ls[i].address != "" && Network(ls[i].kind) == "unix"
    ensures bad <==> !AddressOk(ls, i, net)
    ensures seen'.Keys == FiledKeys(ls, i + 1, net)
  {
    var key := "unix|" + ls[i].address;
    assert Filed(ls[i], net) == Some(key);
    bad := key in seen;
    PathOk(ls, i, net);
    seen' := if bad then seen else seen[key := [ls[i].name]];
  }

  lemma EndpointOk(seen: Addresses, ls: seq<Listener>, i: nat, net: Resolver)
    requires i < |ls| && seen.Keys == FiledKeys(ls, i, net) && Bound(ls[i], net).Some?
    ensures AddressOk(ls, i, net) <==>
            !exists k :: k in seen && KeyConflicts(k, Network(ls[i].kind), Bound(ls[i], net).value)
  {
    ConflictIsEarlier(seen, ls, i, ls[i], net);
  }

  method CheckEndpoint(ls: seq<Listener>, i: nat, net: Resolver, seen: Addresses) returns (bad: bool, seen': Addresses)
    requires i < |ls| && seen.Keys == FiledKeys(ls, i, net) && Bound(ls[i], net).Some?
    ensures bad <==> !AddressOk(ls, i, net)
    ensures seen'.Keys == FiledKeys(ls, i + 1, net)
  {
    var network, e := Network(ls[i].kind), Bound(ls[i], net).value;
    bad := FindConflict(seen, network, e);
    EndpointOk(seen, ls, i, net);
    var key := Key(network, e);
    seen' := seen[key := (if key in seen then seen[key] else []) + [ls[i].name]];
  }

  lemma UnixKeyIff(a: Listener, path: string, net: Resolver)
    ensures Filed(a, net) == Some("unix|" + path) <==> a.address == path != "" && Network(a.kind) == "unix"
  {
    if Filed(a, net).Some? {
      if Network(a.kind) == "unix" {
        assert ("unix|" + a.address)[5..] == a.address && ("unix|" + path)[5..] == path;
      } else {
        assert Filed(a, net).value[0] != 'u' || Filed(a, net).value[1] != 'n';
      }
    }
  }

  method CheckNames(names: seq<string>) returns (problems: nat, seen: set<string>)
    ensures problems == 0 <==> NamesOk(names)
    ensures forall n :: n in seen <==> n in names
  {
    problems, seen := 0, {};
    for i := 0 to |names|
      invariant forall n :: n in seen <==> n in names[..i]
      invariant problems == 0 <==>
        forall k :: 0 <= k < i ==> names[k] != "" && forall j :: 0 <= j < k ==> names[j] != names[k]
    {
      assert names[..i + 1] == names[..i] + [names[i]];
      if names[i] == "" || names[i] in seen {
        problems := problems + 1;
      }
      seen := seen + {names[i]};
    }
    assert names[..|names|] == names;
  }

  method CheckRoute(r: Route, listeners: set<string>, services: set<string>) returns (problems: nat)
    ensures problems == 0 <==>
      && (forall e :: e in r.endpoints ==> e in listeners)
      && (if r.service == "" then r.backends != [] else r.service in services && r.backends == [])
  {
    problems := 0;
    for i := 0 to |r.endpoints|
      invariant problems == 0 <==> forall e :: e in r.endpoints[..i] ==> e in listeners
    {
      assert r.endpoints[..i + 1] == r.endpoints[..i] + [r.endpoints[i]];
      if r.endpoints[i] !in listeners {
        problems := problems + 1;
      }
    }
    assert r.endpoints[..|r.endpoints|] == r.endpoints;
    if r.service != "" && r.service !in services {
      problems := problems + 1;
    }
    if r.service != "" && |r.backends| > 0 {
      problems := problems + 1;
    }
    if |r.backends| == 0 && r.service == "" {
      problems := problems + 1;
    }
  }

  method CheckServices(services: seq<Service>) returns (problems: nat)
    ensures problems == 0 <==> forall i :: 0 <= i < |services| ==> services[i].backends != []
  {
    problems := 0;
    for i := 0 to |services|
      invariant problems == 0 <==> forall k :: 0 <= k < i ==> services[k].backends != []
    {
      if |services[i].backends| == 0 {
        problems := problems + 1;
      }
    }
  }

  method CheckRoutes(cfg: Config, listeners: set<string>, services: set<string>) returns (problems: nat)
    requires forall n :: n in listeners <==> n in ListenerNames(cfg)
    requires forall n :: n in services <==> n in ServiceNames(cfg)
    ensures problems == 0 <==>
      forall i :: 0 <= i < |cfg.routes| ==> RouteOk(cfg.routes[i], ListenerNames(cfg), ServiceNames(cfg))
  {
    problems := 0;
    for i := 0 to |cfg.routes|
      invariant problems == 0 <==>
        forall k :: 0 <= k < i ==> RouteOk(cfg.routes[k], ListenerNames(cfg), ServiceNames(cfg))
    {
      var p := CheckRoute(cfg.routes[i], listeners, services);
      assert p == 0 <==> RouteOk(cfg.routes[i], ListenerNames(cfg), ServiceNames(cfg));
      problems := problems + p;
    }
  }

  method CheckAdmin(cfg: Config, net: Resolver, seen: Addresses) returns (bad: bool)
    requires seen.Keys == FiledKeys(cfg.listeners, |cfg.listeners|, net)
    ensures bad <==> !AdminOk(cfg, net)
  {
    if !cfg.adminEnabled {
      return false;
    }
    if cfg.adminAddress == "" || net(cfg.adminAddress).None? {
      return true;
    }
    var e := net(cfg.adminAddress).value;
    if e.port == 0 {
      return false;
    }
    bad := FindConflict(seen, "tcp", e);
    ConflictIsEarlier(seen, cfg.listeners, |cfg.listeners|, AdminListener(cfg), net);
  }

  /** The checks modelled here accept a configuration exactly when it is in order. */
  method Validate(cfg: Config, net: Resolver) returns (ok: bool)
    ensures ok <==> Accepts(cfg, net)
  {
    var listenerProblems, listeners := CheckNames(ListenerNames(cfg));
    var addressProblems, seen := CheckAddresses(cfg.listeners, net);
    var serviceProblems, services := CheckNames(ServiceNames(cfg));
    var emptyServices := CheckServices(cfg.services);
    var routeProblems, _ := CheckNames(RouteNames(cfg));
    var badRoutes := CheckRoutes(cfg, listeners, services);
    var badAdmin := CheckAdmin(cfg, net, seen);
    ok := listenerProblems + addressProblems + serviceProblems + emptyServices + routeProblems + badRoutes == 0 && !badAdmin;
  }

  // ----- what acceptance is worth

  /** In an accepted configuration two listeners collide only if the host of the earlier one has a bar; and
      no two share a socket path. */
  lemma AcceptedDoNotCollide(cfg: Config, net: Resolver, i: nat, j: nat)
    requires Accepts(cfg, net) && i < j < |cfg.listeners|
    ensures Collide(cfg.listeners[i], cfg.listeners[j], net) ==> '|' in Bound(cfg.listeners[i], net).value.host
    ensures !SamePath(cfg.listeners[i], cfg.listeners[j])
  {
    assert AddressOk(cfg.listeners, j, net);
  }

  /** And no listener at all collides with the administration address, unless its host has a bar. */
  lemma AcceptedAdminDoesNotCollide(cfg: Config, net: Resolver, i: nat)
    requires Accepts(cfg, net) && i < |cfg.listeners| && cfg.adminEnabled
    ensures Collide(cfg.listeners[i], AdminListener(cfg), net) ==> '|' in Bound(cfg.listeners[i], net).value.host
  {
    var admin := AdminListener(cfg);
    if Collide(cfg.listeners[i], admin, net) {
      assert AdminOk(cfg, net);
    }
  }

  /** A listener type of its own for each network: QUIC over udp, sockets by path, everything else over tcp. */
  predicate ByPath(l: Listener) {
    l.kind == "unix" || l.kind == "unix_tcp"
  }

  /** What a collision is: two listeners that are both of type http3 or both not, neither by path, whose addresses
      resolve to one port other than zero, and to one host or to any host on either side. */
  lemma CollideIff(a: Listener, b: Listener, net: Resolver)
    ensures Collide(a, b, net) <==>
            && a.address != "" && b.address != "" && !ByPath(a) && !ByPath(b)
            && ((a.kind == "http3") <==> (b.kind == "http3"))
            && net(a.address).Some? && net(b.address).Some?
            && net(a.address).value.port == net(b.address).value.port != 0
            && var x, y := net(a.address).value.host, net(b.address).value.host; x == y || x == "*" || y == "*"
  {
    assert "http3"[0] != "unix"[0] && "tcp"[0] != "udp"[0] && "unix"[1] != "udp"[1] && "unix"[0] != "tcp"[0];
  }

  lemma SamePathIff(a: Listener, b: Listener)
    ensures SamePath(a, b) <==> ByPath(a) && ByPath(b) && a.address == b.address
  {
    assert "unix"[0] != "tcp"[0] && "unix"[1] != "udp"[1];
  }

  /** Listeners have names and addresses, an address that is no path resolves, names and paths are distinct, and only
      a bar in the host of the earlier one excuses a collision. */
  ghost predicate ListenersInOrder(ls: seq<Listener>, net: Resolver) {
    && (forall i :: 0 <= i < |ls| ==> ls[i].name != "" && ls[i].address != "")
    && (forall i :: 0 <= i < |ls| && !ByPath(ls[i]) ==> net(ls[i].address).Some?)
    && (forall i, j :: 0 <= i < j < |ls| ==> ls[i].name != ls[j].name && !SamePath(ls[i], ls[j]))
    && (forall i, j :: 0 <= i < j < |ls| && Collide(ls[i], ls[j], net) ==> '|' in net(ls[i].address).value.host)
  }

  ghost predicate ServicesInOrder(ss: seq<Service>) {
    && (forall i :: 0 <= i < |ss| ==> ss[i].name != "" && ss[i].backends != [])
    && (forall i, j :: 0 <= i < j < |ss| ==> ss[i].name != ss[j].name)
  }

  /** Routes have distinct names; their endpoints are listeners; and each has backends of its own or else names a
      service. */
  ghost predicate RoutesInOrder(cfg: Config) {
    && (forall i :: 0 <= i < |cfg.routes| ==> cfg.routes[i].name != "" && RouteInOrder(cfg, cfg.routes[i]))
    && (forall i, j :: 0 <= i < j < |cfg.routes| ==> cfg.routes[i].name != cfg.routes[j].name)
  }

  ghost predicate RouteInOrder(cfg: Config, r: Route) {
    && (forall e :: e in r.endpoints ==> exists i :: 0 <= i < |cfg.listeners| && cfg.listeners[i].name == e)
    && (r.service == "" ==> r.backends != [])
    && (r.service != "" ==> r.backends == [] && exists i :: 0 <= i < |cfg.services| && cfg.services[i].name == r.service)
  }

  ghost predicate AdminInOrder(cfg: Config, net: Resolver) {
    cfg.adminEnabled ==>
      && cfg.adminAddress != "" && net(cfg.adminAddress).Some?
      && forall i :: 0 <= i < |cfg.listeners| && Collide(cfg.listeners[i], Listener("", "http", cfg.adminAddress), net) ==>
           '|' in net(cfg.listeners[i].address).value.host
  }

  lemma NamesIff(names: seq<string>)
    ensures NamesOk(names) <==>
            (forall i :: 0 <= i < |names| ==> names[i] != "") && forall i, j :: 0 <= i < j < |names| ==> names[i] != names[j]
  {}

  lemma NetworkIff(l: Listener)
    ensures Network(l.kind) == "unix" <==> ByPath(l)
  {
    assert "unix"[0] != "tcp"[0] && "unix"[1] != "udp"[1];
  }

  lemma ListenersIff(cfg: Config, net: Resolver)
    ensures NamesOk(ListenerNames(cfg)) && AddressesOk(cfg.listeners, net) <==> ListenersInOrder(cfg.listeners, net)
  {
    var ls, names := cfg.listeners, ListenerNames(cfg);
    NamesIff(names);
    forall i | 0 <= i < |ls| ensures (Network(ls[i].kind) == "unix" <==> ByPath(ls[i])) && names[i] == ls[i].name {
      NetworkIff(ls[i]);
    }
    if NamesOk(names) && AddressesOk(ls, net) {
      forall i, j | 0 <= i < j < |ls|
        ensures !SamePath(ls[i], ls[j]) && (Collide(ls[i], ls[j], net) ==> '|' in net(ls[i].address).value.host)
      {
        assert AddressOk(ls, j, net);
      }
      forall i | 0 <= i < |ls| ensures ls[i].address != "" && (!ByPath(ls[i]) ==> net(ls[i].address).Some?) {
        assert AddressOk(ls, i, net);
      }
    }
    if ListenersInOrder(ls, net) {
      forall i | 0 <= i < |ls| ensures AddressOk(ls, i, net) {}
      assert NamesOk(names);
    }
  }

  lemma RouteIff(cfg: Config, r: Route)
    ensures RouteOk(r, ListenerNames(cfg), ServiceNames(cfg)) <==> RouteInOrder(cfg, r)
  {
    forall n ensures n in ListenerNames(cfg) <==> exists i :: 0 <= i < |cfg.listeners| && cfg.listeners[i].name == n {
      if i :| 0 <= i < |cfg.listeners| && cfg.listeners[i].name == n {
        assert ListenerNames(cfg)[i] == n;
      }
    }
    forall n ensures n in ServiceNames(cfg) <==> exists i :: 0 <= i < |cfg.services| && cfg.services[i].name == n {
      if i :| 0 <= i < |cfg.services| && cfg.services[i].name == n {
        assert ServiceNames(cfg)[i] == n;
      }
    }
  }

  /** Exactly which configurations the checks accept, in full. */
  lemma AcceptsIff(cfg: Config, net: Resolver)
    ensures Accepts(cfg, net) <==>
            && ListenersInOrder(cfg.listeners, net) && ServicesInOrder(cfg.services) && RoutesInOrder(cfg)
            && AdminInOrder(cfg, net)
  {
    ListenersIff(cfg, net);
    NamesIff(ServiceNames(cfg));
    NamesIff(RouteNames(cfg));
    forall r ensures RouteOk(r, ListenerNames(cfg), ServiceNames(cfg)) <==> RouteInOrder(cfg, r) {
      RouteIff(cfg, r);
    }
    assert forall i :: 0 <= i < |cfg.services| ==> ServiceNames(cfg)[i] == cfg.services[i].name;
    assert forall i :: 0 <= i < |cfg.routes| ==> RouteNames(cfg)[i] == cfg.routes[i].name;
    assert AdminOk(cfg, net) <==> AdminInOrder(cfg, net);
  }

  /** And with a bar the check is blind: two listeners on the very same address are accepted. */
  lemma BarsHideCollisions(net: Resolver)
    requires net("a|b:80") == Some(Endpoint("a|b", 80))
    ensures var a, b := Listener("one", "http", "a|b:80"), Listener("two", "http", "a|b:80");
            Collide(a, b, net) && Accepts(Config([a, b], [], [], false, ""), net)
  {
    var a, b := Listener("one", "http", "a|b:80"), Listener("two", "http", "a|b:80");
    var cfg := Config([a, b], [], [], false, "");
    assert "a|b"[1] == '|';
    assert a.name[0] != b.name[0];
    assert ListenerNames(cfg) == ["one", "two"];
  }

  // ----- the route builder

  /** `servicesByName`: a later service of the same name wins. */
  function ByName(services: seq<Service>, name: string): seq<string> {
    if services == [] then []
    else
      var last := services[|services| - 1];
      if last.name == name then last.backends else ByName(services[..|services| - 1], name)
  }

  /** The backends that the builder gives a route. */
  function Resolved(cfg: Config, r: Route): seq<string> {
    if r.backends == [] && r.service != "" then ByName(cfg.services, r.service) else r.backends
  }

  lemma {:induction false} ByNameFinds(services: seq<Service>, name: string)
    requires exists i :: 0 <= i < |services| && services[i].name == name
    ensures exists i :: 0 <= i < |services| && services[i].name == name && ByName(services, name) == services[i].backends
  {
    var n := |services| - 1;
    if services[n].name != name {
      ByNameFinds(services[..n], name);
      var i :| 0 <= i < n && services[i].name == name && ByName(services[..n], name) == services[i].backends;
      assert services[i].name == name;
    }
  }

  /** Every route of an accepted configuration has a backend, so the builder's error for none is
      unreachable; and the service it names is the only one of that name. */
  lemma AcceptedRoutesResolve(cfg: Config, net: Resolver, r: Route)
    requires Accepts(cfg, net) && r in cfg.routes
    ensures Resolved(cfg, r) != []
    ensures r.service == "" ==> Resolved(cfg, r) == r.backends
    ensures r.service != "" ==>
              exists i :: 0 <= i < |cfg.services| && cfg.services[i].name == r.service && Resolved(cfg, r) == cfg.services[i].backends
                && forall j :: 0 <= j < |cfg.services| && cfg.services[j].name == r.service ==> i == j
  {
    var k :| 0 <= k < |cfg.routes| && cfg.routes[k] == r;
    assert RouteOk(cfg.routes[k], ListenerNames(cfg), ServiceNames(cfg));
    if r.service != "" {
      var names := ServiceNames(cfg);
      var i :| 0 <= i < |names| && names[i] == r.service;
      assert cfg.services[i].name == r.service;
      ByNameFinds(cfg.services, r.service);
      var m :| 0 <= m < |cfg.services| && cfg.services[m].name == r.service && ByName(cfg.services, r.service) == cfg.services[m].backends;
      forall j | 0 <= j < |cfg.services| && cfg.services[j].name == r.service ensures m == j {
        assert names[m] == names[j];
      }
    }
  }
}
