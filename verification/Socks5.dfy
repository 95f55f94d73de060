/** The SOCKS5 handshake, after sections 3 to 6 of RFC 1928 and section 2 of RFC 1929. */
module Socks5 {
  import opened Bytes
  import opened Wrappers

  const VERSION: Byte := 5
  const NO_AUTH: Byte := 0
  const USER_PASS: Byte := 2
  const NO_ACCEPTABLE: Byte := 255
  const CONNECT: Byte := 1
  const IPV4: Byte := 1
  const DOMAIN: Byte := 3
  const IPV6: Byte := 4
  const SUCCEEDED: Byte := 0
  const GENERAL_ERROR: Byte := 1
  const COMMAND_DENIED: Byte := 7
  const AUTH_VERSION: Byte := 1
  const REJECTED: Byte := 255

  type Users = map<Str, Str>

  // ----- the messages, as a client would write them

  datatype Address = Ip4(bytes: Str) | Ip6(bytes: Str) | Name(bytes: Str)
  datatype Target = Target(address: Address, port: int)
  datatype Auth = Auth(user: Str, password: Str)

  /** Everything a client says before the tunnel; the reserved byte of the request is free. */
  datatype Handshake = Handshake(methods: Str, auth: Option<Auth>, reserved: Byte, target: Target)

  function Sized(s: Str): Str
    requires |s| < 256
  {
    [|s|] + s
  }

  function EncodeGreeting(methods: Str): Str
    requires |methods| < 256
  {
    [VERSION] + Sized(methods)
  }

  function EncodeAuth(a: Auth): Str
    requires |a.user| < 256 && |a.password| < 256
  {
    [AUTH_VERSION] + Sized(a.user) + Sized(a.password)
  }

  predicate ValidAddress(a: Address) {
    match a
    case Ip4(b) => |b| == 4
    case Ip6(b) => |b| == 16
    case Name(b) => |b| < 256
  }

  predicate ValidTarget(t: Target) {
    ValidAddress(t.address) && 0 <= t.port < 65536
  }

  function EncodePort(port: int): Str
    requires 0 <= port < 65536
  {
    [port / 256, port % 256]
  }

  function Kind(a: Address): Byte {
    match a case Ip4(_) => IPV4 case Ip6(_) => IPV6 case Name(_) => DOMAIN
  }

  function EncodeAddress(a: Address): Str
    requires ValidAddress(a)
  {
    if a.Name? then Sized(a.bytes) else a.bytes
  }

  /** The address and the port, after the byte that tells the kind of the address. */
  function EncodeTarget(t: Target): Str
    requires ValidTarget(t)
  {
    EncodeAddress(t.address) + EncodePort(t.port)
  }

  function EncodeRequest(reserved: Byte, t: Target): Str
    requires ValidTarget(t)
  {
    [VERSION, CONNECT, reserved, Kind(t.address)] + EncodeTarget(t)
  }

  /** The client offers what this server asks for: no authentication when it has no users, and otherwise
      the name and password of one of them. */
  predicate Welcome(methods: Str, auth: Option<Auth>, users: Users) {
    && |methods| < 256
    && if users == map[] then NO_AUTH in methods && auth.None?
       else
         && USER_PASS in methods && auth.Some?
         && |auth.value.user| < 256 && |auth.value.password| < 256
         && auth.value.user in users && users[auth.value.user] == auth.value.password
  }

  function EncodeOpening(methods: Str, auth: Option<Auth>, users: Users): Str
    requires Welcome(methods, auth, users)
  {
    EncodeGreeting(methods) + (if auth.Some? then EncodeAuth(auth.value) else [])
  }

  /** The handshake is one that this server accepts. */
  predicate Acceptable(h: Handshake, users: Users) {
    Welcome(h.methods, h.auth, users) && ValidTarget(h.target)
  }

  function Encode(h: Handshake, users: Users): Str
    requires Acceptable(h, users)
  {
    EncodeOpening(h.methods, h.auth, users) + EncodeRequest(h.reserved, h.target)
  }

  // ----- what the server makes of a stream

  /** Takes `n` bytes off the front, or fails. */
  function Take(s: Str, n: nat): Option<(Str, Str)> {
    if |s| < n then None else Some((s[..n], s[n..]))
  }

  /** Takes a length byte and that many bytes. */
  function TakeSized(s: Str): Option<(Str, Str)> {
    if s == [] then None else Take(s[1..], s[0])
  }

  /** A phase ends with a value and the rest of the stream, or gives up; both after some output. */
  datatype Phase<+T> = GaveUp(out: Str) | Passed(value: T, rest: Str, out: Str)

  function Negotiated(s: Str, users: Users): Phase<(Str, Option<Auth>)> {
    if |s| < 2 || s[0] != VERSION then GaveUp([])
    else match TakeSized(s[1..])
      case None => GaveUp([])
      case Some((methods, rest)) =>
        if users == map[] then
          if NO_AUTH in methods then Passed((methods, None), rest, [VERSION, NO_AUTH])
          else GaveUp([VERSION, NO_ACCEPTABLE])
        else if USER_PASS in methods then
          match Authenticated(rest, users)
          case GaveUp(out) => GaveUp([VERSION, USER_PASS] + out)
          case Passed(auth, rest', out) => Passed((methods, Some(auth)), rest', [VERSION, USER_PASS] + out)
        else GaveUp([VERSION, NO_ACCEPTABLE])
  }

  function Authenticated(s: Str, users: Users): Phase<Auth> {
    if |s| < 2 || s[0] != AUTH_VERSION then GaveUp([])
    else match TakeSized(s[1..])
      case None => GaveUp([])
      case Some((user, rest)) =>
        match TakeSized(rest)
        case None => GaveUp([])
        case Some((password, rest')) =>
          if user in users && users[user] == password
          then Passed(Auth(user, password), rest', [AUTH_VERSION, 0])
          else GaveUp([AUTH_VERSION, REJECTED])
  }

  function TakeAddress(kind: Byte, s: Str): Option<(Address, Str)> {
    if kind == IPV4 then
      match Take(s, 4) case None => None case Some((b, rest)) => Some((Ip4(b), rest))
    else if kind == DOMAIN then
      match TakeSized(s) case None => None case Some((b, rest)) => Some((Name(b), rest))
    else if kind == IPV6 then
      match Take(s, 16) case None => None case Some((b, rest)) => Some((Ip6(b), rest))
    else None
  }

  function TakePort(s: Str): Option<(int, Str)> {
    if |s| < 2 then None else Some((256 * (s[0] as int) + s[1] as int, s[2..]))
  }

  function TakeTarget(kind: Byte, s: Str): Option<(Target, Str)> {
    match TakeAddress(kind, s)
    case None => None
    case Some((address, rest)) =>
      match TakePort(rest)
      case None => None
      case Some((port, rest')) => Some((Target(address, port), rest'))
  }

  function Requested(s: Str): Phase<(Byte, Target)> {
    if |s| < 4 then GaveUp([])
    else if s[0] != VERSION || s[1] != CONNECT then GaveUp(Reply(COMMAND_DENIED, [], 0))
    else match TakeTarget(s[3], s[4..])
      case None => GaveUp([])
      case Some((target, rest)) => Passed((s[2], target), rest, [])
  }

  datatype Outcome = Closed(out: Str) | Dials(h: Handshake, rest: Str, out: Str)

  /** `handleSOCKS5Connection` up to the dial. */
  function Handled(s: Str, users: Users): Outcome {
    match Negotiated(s, users)
    case GaveUp(out) => Closed(out)
    case Passed((methods, auth), rest, out) =>
      match Requested(rest)
      case GaveUp(out') => Closed(out + out' + Reply(GENERAL_ERROR, [], 0))
      case Passed((reserved, target), rest', out') => Dials(Handshake(methods, auth, reserved, target), rest', out + out')
  }

  // ----- replies

  /** `To4`: the four bytes of an IPv4 address, also in its 16-byte form; nothing otherwise. */
  function To4(ip: Str): Str {
    if |ip| == 4 then ip
    else if |ip| == 16 && ip[..12] == [0, 0, 0, 0, 0, 0, 0, 0, 0, 0, 255, 255] then ip[12..]
    else []
  }

  function To16(ip: Str): Str {
    if |ip| == 4 then [0, 0, 0, 0, 0, 0, 0, 0, 0, 0, 255, 255] + ip else if |ip| == 16 then ip else []
  }

  /** The address that a reply carries: none stands for the zero address, and four bytes are preferred. */
  function Bound(ip: Str): Address {
    if ip == [] then Ip4([0, 0, 0, 0]) else if To4(ip) != [] then Ip4(To4(ip)) else Ip6(To16(ip))
  }

  /** `writeSOCKS5Reply`; the port is cut to 16 bits. */
  function Reply(status: Byte, ip: Str, port: int): Str {
    [VERSION, status, 0, Kind(Bound(ip))] + Bound(ip).bytes + EncodePort(port % 65536)
  }

  /** A client reading a reply: status, address, port and the rest of the stream. */
  function DecodeReply(s: Str): Option<(Byte, Target, Str)> {
    if |s| < 4 || s[0] != VERSION || s[2] != 0 then None
    else match TakeTarget(s[3], s[4..])
      case None => None
      case Some((target, rest)) => Some((s[1], target, rest))
  }

  // ----- reading undoes writing

  lemma TakeConcat(a: Str, rest: Str)
    ensures Take(a + rest, |a|) == Some((a, rest))
  {
    assert (a + rest)[..|a|] == a && (a + rest)[|a|..] == rest;
  }

  lemma TakeSizedConcat(a: Str, rest: Str)
    requires |a| < 256
    ensures TakeSized(Sized(a) + rest) == Some((a, rest))
  {
    assert (Sized(a) + rest)[1..] == a + rest;
    TakeConcat(a, rest);
  }

  lemma TakePortConcat(port: int, rest: Str)
    requires 0 <= port < 65536
    ensures TakePort(EncodePort(port) + rest) == Some((port, rest))
  {
    assert (EncodePort(port) + rest)[2..] == rest;
  }

  lemma TakeTargetConcat(t: Target, rest: Str)
    requires ValidTarget(t)
    ensures TakeTarget(Kind(t.address), EncodeTarget(t) + rest) == Some((t, rest))
  {
    var tail := EncodePort(t.port) + rest;
    assert EncodeTarget(t) + rest == EncodeAddress(t.address) + tail;
    if t.address.Name? {
      TakeSizedConcat(t.address.bytes, tail);
    } else {
      TakeConcat(t.address.bytes, tail);
    }
    TakePortConcat(t.port, rest);
  }

  lemma BoundIsSame(ip: Str)
    requires |ip| == 0 || |ip| == 4 || |ip| == 16
    ensures ValidAddress(Bound(ip)) && !Bound(ip).Name?
    ensures To16(Bound(ip).bytes) == if ip == [] then To16([0, 0, 0, 0]) else To16(ip)
  {
    if |ip| == 16 {
      assert ip == ip[..12] + ip[12..];
    }
  }

  /** The client recovers the status, the port and the address, which in 16-byte form is the bound one. */
  lemma ReplyRoundTrip(status: Byte, ip: Str, port: int, rest: Str)
    requires |ip| == 0 || |ip| == 4 || |ip| == 16
    ensures DecodeReply(Reply(status, ip, port) + rest) == Some((status, Target(Bound(ip), port % 65536), rest))
    ensures To16(Bound(ip).bytes) == if ip == [] then To16([0, 0, 0, 0]) else To16(ip)
  {
    BoundIsSame(ip);
    var t := Target(Bound(ip), port % 65536);
    var s := Reply(status, ip, port) + rest;
    assert s == [VERSION, status, 0, Kind(t.address)] + (EncodeTarget(t) + rest);
    assert s[4..] == EncodeTarget(t) + rest;
    TakeTargetConcat(t, rest);
  }

  lemma AuthConcat(a: Auth, rest: Str, users: Users)
    requires |a.user| < 256 && |a.password| < 256 && a.user in users && users[a.user] == a.password
    ensures Authenticated(EncodeAuth(a) + rest, users) == Passed(a, rest, [AUTH_VERSION, 0])
  {
    var s := EncodeAuth(a) + rest;
    assert s[1..] == Sized(a.user) + (Sized(a.password) + rest);
    TakeSizedConcat(a.user, Sized(a.password) + rest);
    TakeSizedConcat(a.password, rest);
  }

  lemma GreetingConcat(methods: Str, after: Str)
    requires |methods| < 256
    ensures var s := EncodeGreeting(methods) + after;
            |s| >= 2 && s[0] == VERSION && TakeSized(s[1..]) == Some((methods, after))
  {
    assert (EncodeGreeting(methods) + after)[1..] == Sized(methods) + after;
    TakeSizedConcat(methods, after);
  }

  lemma NegotiatedConcat(methods: Str, auth: Option<Auth>, users: Users, rest: Str)
    requires Welcome(methods, auth, users)
    ensures var p := Negotiated(EncodeOpening(methods, auth, users) + rest, users);
            p.Passed? && p.value == (methods, auth) && p.rest == rest
  {
    assert EncodeGreeting(methods) == WireGreeting(methods);
    if auth.Some? {
      Associate(EncodeGreeting(methods), EncodeAuth(auth.value), rest);
      GreetingWithUsers(methods, EncodeAuth(auth.value) + rest, users);
      AuthConcat(auth.value, rest, users);
    } else {
      assert EncodeGreeting(methods) + [] == EncodeGreeting(methods);
      OpenGreeting(methods, rest);
    }
  }

  lemma RequestedConcat(reserved: Byte, t: Target, rest: Str)
    requires ValidTarget(t)
    ensures Requested(EncodeRequest(reserved, t) + rest) == Passed((reserved, t), rest, [])
  {
    var s := EncodeRequest(reserved, t) + rest;
    assert s[4..] == EncodeTarget(t) + rest;
    TakeTargetConcat(t, rest);
  }

  /** Every acceptable handshake is dialled, to its own target, with the bytes after it left in place. */
  lemma {:induction false} AcceptableDials(h: Handshake, users: Users, rest: Str)
    requires Acceptable(h, users)
    ensures var o := Handled(Encode(h, users) + rest, users); o.Dials? && o.h == h && o.rest == rest
  {
    var request := EncodeRequest(h.reserved, h.target) + rest;
    Associate(EncodeOpening(h.methods, h.auth, users), EncodeRequest(h.reserved, h.target), rest);
    NegotiatedConcat(h.methods, h.auth, users, request);
    RequestedConcat(h.reserved, h.target, rest);
  }

  // ----- writing undoes reading: nothing else is dialled

  lemma TakeSizedSound(s: Str)
    requires TakeSized(s).Some?
    ensures var (a, rest) := TakeSized(s).value; |a| < 256 && s == Sized(a) + rest
  {}

  lemma TakeAddressSound(kind: Byte, s: Str)
    requires TakeAddress(kind, s).Some?
    ensures var (a, rest) := TakeAddress(kind, s).value;
            ValidAddress(a) && Kind(a) == kind && s == EncodeAddress(a) + rest
  {
    if kind == DOMAIN {
      TakeSizedSound(s);
    }
  }

  lemma TakePortSound(s: Str)
    requires TakePort(s).Some?
    ensures var (port, rest) := TakePort(s).value; 0 <= port < 65536 && s == EncodePort(port) + rest
  {
    assert s == [s[0], s[1]] + s[2..];
  }

  lemma TakeTargetSound(kind: Byte, s: Str)
    requires TakeTarget(kind, s).Some?
    ensures var (t, rest) := TakeTarget(kind, s).value;
            ValidTarget(t) && Kind(t.address) == kind && s == EncodeTarget(t) + rest
  {
    TakeAddressSound(kind, s);
    TakePortSound(TakeAddress(kind, s).value.1);
  }

  lemma AuthSound(s: Str, users: Users)
    requires Authenticated(s, users).Passed?
    ensures var p := Authenticated(s, users);
            && |p.value.user| < 256 && |p.value.password| < 256
            && p.value.user in users && users[p.value.user] == p.value.password
            && s == EncodeAuth(p.value) + p.rest
  {
    TakeSizedSound(s[1..]);
    var (user, rest) := TakeSized(s[1..]).value;
    TakeSizedSound(rest);
    var (password, rest') := TakeSized(rest).value;
    assert s == [AUTH_VERSION] + s[1..];
    Associate([AUTH_VERSION], Sized(user), rest);
    Associate([AUTH_VERSION] + Sized(user), Sized(password), rest');
  }

  lemma GreetingSound(s: Str)
    requires |s| >= 2 && s[0] == VERSION && TakeSized(s[1..]).Some?
    ensures var (methods, rest) := TakeSized(s[1..]).value; |methods| < 256 && s == EncodeGreeting(methods) + rest
  {
    TakeSizedSound(s[1..]);
    var (methods, rest) := TakeSized(s[1..]).value;
    assert s == [VERSION] + s[1..];
    Associate([VERSION], Sized(methods), rest);
  }

  lemma {:induction false} NegotiatedSound(s: Str, users: Users)
    requires Negotiated(s, users).Passed?
    ensures var p := Negotiated(s, users);
            Welcome(p.value.0, p.value.1, users) && s == EncodeOpening(p.value.0, p.value.1, users) + p.rest
  {
    GreetingSound(s);
    var (methods, rest) := TakeSized(s[1..]).value;
    if users != map[] {
      AuthSound(rest, users);
      var p := Authenticated(rest, users);
      Associate(EncodeGreeting(methods), EncodeAuth(p.value), p.rest);
    } else {
      assert EncodeGreeting(methods) + [] == EncodeGreeting(methods);
    }
  }

  lemma RequestedSound(s: Str)
    requires Requested(s).Passed?
    ensures var p := Requested(s);
            ValidTarget(p.value.1) && s == EncodeRequest(p.value.0, p.value.1) + p.rest
  {
    TakeTargetSound(s[3], s[4..]);
    assert s == [s[0], s[1], s[2], s[3]] + s[4..];
  }

  /** Whatever is dialled was asked for by an acceptable handshake, which the stream begins with and of
      which every byte, and no other, has been consumed. */
  lemma {:induction false} DialledWasAcceptable(s: Str, users: Users)
    requires Handled(s, users).Dials?
    ensures var o := Handled(s, users); Acceptable(o.h, users) && s == Encode(o.h, users) + o.rest
  {
    NegotiatedSound(s, users);
    var n := Negotiated(s, users);
    RequestedSound(n.rest);
    var q := Requested(n.rest);
    Associate(EncodeOpening(n.value.0, n.value.1, users), EncodeRequest(q.value.0, q.value.1), q.rest);
  }

  /** The server dials exactly on the streams that begin with an acceptable handshake. */
  lemma DialsIff(s: Str, users: Users)
    ensures Handled(s, users).Dials? <==>
            exists h, rest :: Acceptable(h, users) && s == Encode(h, users) + rest
  {
    if Handled(s, users).Dials? {
      DialledWasAcceptable(s, users);
    }
    if h, rest :| Acceptable(h, users) && s == Encode(h, users) + rest {
      AcceptableDials(h, users, rest);
    }
  }

  /** A request that is no CONNECT gets two replies: command denied, then general error. */
  lemma DeniedGetsTwoReplies(s: Str, users: Users)
    requires var n := Negotiated(s, users); n.Passed? && |n.rest| >= 4 && (n.rest[0] != VERSION || n.rest[1] != CONNECT)
    ensures Handled(s, users) ==
            Closed(Negotiated(s, users).out + Reply(COMMAND_DENIED, [], 0) + Reply(GENERAL_ERROR, [], 0))
    ensures Reply(COMMAND_DENIED, [], 0) == [5, 7, 0, 1, 0, 0, 0, 0, 0, 0]
    ensures Reply(GENERAL_ERROR, [], 0) == [5, 1, 0, 1, 0, 0, 0, 0, 0, 0]
  {}

  // ----- the bytes on the wire

  /** Kind 1 and four bytes, kind 3, a length and a name, or kind 4 and sixteen bytes; then the port, high byte
      first. */
  function WireTarget(t: Target): Str
    requires ValidTarget(t)
  {
    (match t.address case Ip4(b) => [1] + b case Name(b) => [3, |b|] + b case Ip6(b) => [4] + b)
    + [t.port / 256, t.port % 256]
  }

  function WireGreeting(methods: Str): Str
    requires |methods| < 256
  {
    [5, |methods|] + methods
  }

  function WirePassword(a: Auth): Str
    requires |a.user| < 256 && |a.password| < 256
  {
    [1, |a.user|] + a.user + [|a.password|] + a.password
  }

  const DENIED_BYTES: Str := [5, 7, 0, 1, 0, 0, 0, 0, 0, 0]
  const ERROR_BYTES: Str := [5, 1, 0, 1, 0, 0, 0, 0, 0, 0]

  /** So the handshakes of `DialsIff` are these bytes. */
  lemma EncodeIsWire(h: Handshake, users: Users)
    requires Acceptable(h, users)
    ensures 0 in h.methods || 2 in h.methods
    ensures Encode(h, users) ==
            WireGreeting(h.methods) + (if h.auth.Some? then WirePassword(h.auth.value) else [])
            + [5, 1, h.reserved] + WireTarget(h.target)
  {
    WireRequest(h.reserved, h.target);
    if h.auth.Some? {
      WireAuth(h.auth.value);
    }
    assert EncodeGreeting(h.methods) == WireGreeting(h.methods);
  }

  lemma WireRequest(reserved: Byte, t: Target)
    requires ValidTarget(t)
    ensures EncodeRequest(reserved, t) == [5, 1, reserved] + WireTarget(t)
  {}

  lemma WireAuth(a: Auth)
    requires |a.user| < 256 && |a.password| < 256
    ensures EncodeAuth(a) == WirePassword(a)
  {}

  /** Without users, a client that offers method 0 is told `5 0`. */
  lemma OpenGreeting(methods: Str, after: Str)
    requires |methods| < 256
    ensures Negotiated(WireGreeting(methods) + after, map[]) ==
            if 0 in methods then Passed((methods, None), after, [5, 0]) else GaveUp([5, 255])
  {
    assert WireGreeting(methods) == EncodeGreeting(methods);
    GreetingConcat(methods, after);
  }

  lemma PasswordAnswer(a: Auth, after: Str, users: Users)
    requires |a.user| < 256 && |a.password| < 256
    ensures Authenticated(WirePassword(a) + after, users) ==
            if a.user in users && users[a.user] == a.password then Passed(a, after, [1, 0]) else GaveUp([1, 255])
  {
    WireAuth(a);
    var s := EncodeAuth(a) + after;
    assert s[1..] == Sized(a.user) + (Sized(a.password) + after);
    TakeSizedConcat(a.user, Sized(a.password) + after);
    TakeSizedConcat(a.password, after);
  }

  lemma GreetingWithUsers(methods: Str, exchange: Str, users: Users)
    requires |methods| < 256 && users != map[]
    ensures Negotiated(WireGreeting(methods) + exchange, users) ==
            if 2 !in methods then GaveUp([5, 255])
            else match Authenticated(exchange, users)
              case GaveUp(out) => GaveUp([5, 2] + out)
              case Passed(a, rest, out) => Passed((methods, Some(a)), rest, [5, 2] + out)
  {
    assert WireGreeting(methods) == EncodeGreeting(methods);
    GreetingConcat(methods, exchange);
  }

  /** With users, one that offers method 2 is told `5 2`, and `1 0` after the name and password of a user, `1 255`
      after any other. */
  lemma PasswordGreeting(methods: Str, a: Auth, after: Str, users: Users)
    requires |methods| < 256 && |a.user| < 256 && |a.password| < 256 && users != map[]
    ensures Negotiated(WireGreeting(methods) + (WirePassword(a) + after), users) ==
            if 2 !in methods then GaveUp([5, 255])
            else if a.user in users && users[a.user] == a.password then Passed((methods, Some(a)), after, [5, 2, 1, 0])
            else GaveUp([5, 2, 1, 255])
  {
    GreetingWithUsers(methods, WirePassword(a) + after, users);
    PasswordAnswer(a, after, users);
  }

  /** After a passed greeting a CONNECT is dialled, and leaves the rest of the stream. */
  lemma ConnectIsDialled(s: Str, users: Users, reserved: Byte, t: Target, rest: Str)
    requires Negotiated(s, users).Passed? && ValidTarget(t)
    requires Negotiated(s, users).rest == [5, 1, reserved] + WireTarget(t) + rest
    ensures var n := Negotiated(s, users);
            Handled(s, users) == Dials(Handshake(n.value.0, n.value.1, reserved, t), rest, n.out)
  {
    WireRequest(reserved, t);
    RequestedConcat(reserved, t, rest);
    assert Negotiated(s, users).out + [] == Negotiated(s, users).out;
  }

  /** Another command or version gets two replies; an address of unknown kind, or a request that breaks off, one. */
  lemma OtherRequestIsClosed(s: Str, users: Users)
    requires Negotiated(s, users).Passed?
    ensures var n := Negotiated(s, users);
            && (|n.rest| < 4 ==> Handled(s, users) == Closed(n.out + ERROR_BYTES))
            && (|n.rest| >= 4 && (n.rest[0] != 5 || n.rest[1] != 1) ==>
                  Handled(s, users) == Closed(n.out + DENIED_BYTES + ERROR_BYTES))
            && (|n.rest| >= 4 && n.rest[0] == 5 && n.rest[1] == 1 && n.rest[3] !in {1, 3, 4} ==>
                  Handled(s, users) == Closed(n.out + ERROR_BYTES))
  {
    assert Negotiated(s, users).out + [] == Negotiated(s, users).out;
    assert Reply(COMMAND_DENIED, [], 0) == DENIED_BYTES && Reply(GENERAL_ERROR, [], 0) == ERROR_BYTES;
  }

  lemma PlainRequest(reserved: Byte, a: Byte, b: Byte, c: Byte, d: Byte, p: Byte, q: Byte)
    ensures [5, 1, reserved] + WireTarget(Target(Ip4([a, b, c, d]), 256 * p + q)) == [5, 1, reserved, 1, a, b, c, d, p, q]
  {}

  /** An ordinary client, byte by byte: no users, one method offered, an IPv4 address. */
  lemma PlainClient(reserved: Byte, a: Byte, b: Byte, c: Byte, d: Byte, p: Byte, q: Byte, rest: Str)
    ensures Handled([5, 1, 0, 5, 1, reserved, 1, a, b, c, d, p, q] + rest, map[]) ==
            Dials(Handshake([0], None, reserved, Target(Ip4([a, b, c, d]), 256 * p + q)), rest, [5, 0])
  {
    var t := Target(Ip4([a, b, c, d]), 256 * p + q);
    var request := [5, 1, reserved, 1, a, b, c, d, p, q] + rest;
    PlainRequest(reserved, a, b, c, d, p, q);
    OpenGreeting([0], request);
    ConnectIsDialled(WireGreeting([0]) + request, map[], reserved, t, rest);
    assert [5, 1, 0, 5, 1, reserved, 1, a, b, c, d, p, q] + rest == WireGreeting([0]) + request;
  }

  /** A stream of another version, or one that breaks off in the greeting, is closed without a word. */
  lemma WrongVersionIsClosed(s: Str, users: Users)
    requires |s| < 2 || s[0] != 5 || |s| < 2 + s[1] as int
    ensures Handled(s, users) == Closed([])
  {}

  /** After method 2 was agreed, an exchange of another version, or one that breaks off, is closed. */
  lemma WrongAuthIsClosed(methods: Str, after: Str, users: Users)
    requires |methods| < 256 && 2 in methods && users != map[]
    requires |after| < 2 || after[0] != 1 || |after| < 3 + after[1] as int
             || |after| < 3 + after[1] as int + after[2 + after[1] as int] as int
    ensures Handled(WireGreeting(methods) + after, users) == Closed([5, 2])
  {
    assert WireGreeting(methods) == EncodeGreeting(methods);
    GreetingConcat(methods, after);
    assert [5, 2] + [] == [5, 2];
  }

  /** The bytes of a reply: an IPv4 address, also one in 16-byte form, is of kind 1, any other of kind 4. */
  lemma ReplyBytes(status: Byte, ip: Str, port: int)
    requires |ip| == 0 || |ip| == 4 || |ip| == 16
    ensures var tail := [port % 65536 / 256, port % 256];
            Reply(status, ip, port) ==
            if ip == [] then [5, status, 0, 1, 0, 0, 0, 0] + tail
            else if |ip| == 4 then [5, status, 0, 1] + ip + tail
            else if ip[..12] == [0, 0, 0, 0, 0, 0, 0, 0, 0, 0, 255, 255] then [5, status, 0, 1] + ip[12..] + tail
            else [5, status, 0, 4] + ip + tail
  {}

  // ----- the code

  /** A connection: what the client has still to say, and what it has been told. */
  class Conn {
    var input: Str
    var output: Str

    constructor (stream: Str)
      ensures input == stream && output == []
    {
      input, output := stream, [];
    }

    method ReadFull(n: nat) returns (r: Option<Str>)
      modifies this`input
      ensures match Take(old(input), n)
              case None => r.None?
              case Some((a, rest)) => r == Some(a) && input == rest
    {
      if |input| < n {
        input := [];
        return None;
      }
      r := Some(input[..n]);
      input := input[n..];
    }

    method Write(s: Str)
      modifies this`output
      ensures output == old(output) + s
    {
      output := output + s;
    }

    /** What a phase returns and leaves in the connection, after the output `before`. */
    ghost predicate Did<T>(p: Phase<T>, r: Option<T>, before: Str)
      reads this
    {
      && output == before + p.out
      && (p.GaveUp? ==> r.None?)
      && (p.Passed? ==> r == Some(p.value) && input == p.rest)
    }

    method Authenticate(users: Users) returns (r: Option<Auth>)
      modifies this
      ensures Did(Authenticated(old(input), users), r, old(output))
    {
      ghost var s := input;
      var header := ReadFull(2);
      if header.None? || header.value[0] != AUTH_VERSION {
        return None;
      }
      assert s[1..][1..] == s[2..];
      var username := ReadFull(header.value[1]);
      if username.None? {
        return None;
      }
      ghost var rest := input;
      var length := ReadFull(1);
      if length.None? {
        return None;
      }
      assert input == rest[1..];
      var password := ReadFull(length.value[0]);
      if password.None? {
        return None;
      }
      var ok := username.value in users && users[username.value] == password.value;
      Write([AUTH_VERSION, if ok then 0 else REJECTED]);
      r := if ok then Some(Auth(username.value, password.value)) else None;
    }

    method Negotiate(users: Users) returns (r: Option<(Str, Option<Auth>)>)
      modifies this
      ensures Did(Negotiated(old(input), users), r, old(output))
    {
      ghost var s := input;
      var header := ReadFull(2);
      if header.None? || header.value[0] != VERSION {
        return None;
      }
      assert s[1..][1..] == s[2..];
      var methods := ReadFull(header.value[1]);
      if methods.None? {
        return None;
      }
      var wanted := if users == map[] then NO_AUTH else USER_PASS;
      var offered := false;
      for i := 0 to |methods.value|
        invariant offered <==> wanted in methods.value[..i]
      {
        if methods.value[i] == wanted {
          offered := true;
        }
      }
      assert methods.value[..|methods.value|] == methods.value;
      if !offered {
        Write([VERSION, NO_ACCEPTABLE]);
        return None;
      }
      Write([VERSION, wanted]);
      if users == map[] {
        return Some((methods.value, None));
      }
      var auth := Authenticate(users);
      r := if auth.Some? then Some((methods.value, auth)) else None;
    }

    method ReadConnectRequest() returns (r: Option<(Byte, Target)>)
      modifies this
      ensures Did(Requested(old(input)), r, old(output))
    {
      var header := ReadFull(4);
      if header.None? {
        return None;
      }
      if header.value[0] != VERSION || header.value[1] != CONNECT {
        Write(Reply(COMMAND_DENIED, [], 0));
        return None;
      }
      var address := ReadAddress(header.value[3]);
      if address.None? {
        return None;
      }
      var port := ReadFull(2);
      if port.None? {
        return None;
      }
      r := Some((header.value[2], Target(address.value, 256 * (port.value[0] as int) + port.value[1] as int)));
    }

    method ReadAddress(kind: Byte) returns (r: Option<Address>)
      modifies this`input
      ensures match TakeAddress(kind, old(input))
              case None => r.None?
              case Some((a, rest)) => r == Some(a) && input == rest
    {
      ghost var s := input;
      if kind == IPV4 {
        var a := ReadFull(4);
        r := if a.Some? then Some(Ip4(a.value)) else None;
      } else if kind == DOMAIN {
        var length := ReadFull(1);
        if length.None? {
          return None;
        }
        assert input == s[1..];
        var a := ReadFull(length.value[0]);
        r := if a.Some? then Some(Name(a.value)) else None;
      } else if kind == IPV6 {
        var a := ReadFull(16);
        r := if a.Some? then Some(Ip6(a.value)) else None;
      } else {
        r := None;
      }
    }

    /** The handshake, up to the dial; `None` is a connection closed without dialling. */
    method Handle(users: Users) returns (r: Option<Target>)
      modifies this
      ensures match Handled(old(input), users)
              case Closed(out) => r.None? && output == old(output) + out
              case Dials(h, rest, out) => r == Some(h.target) && input == rest && output == old(output) + out
    {
      ghost var n := Negotiated(input, users);
      var opening := Negotiate(users);
      if opening.None? {
        return None;
      }
      ghost var q := Requested(input);
      var request := ReadConnectRequest();
      assert output == old(output) + (n.out + q.out);
      if request.None? {
        var last := Reply(GENERAL_ERROR, [], 0);
        Write(last);
        assert output == old(output) + (n.out + q.out + last);
        return None;
      }
      r := Some(request.value.1);
    }

    /** After the dial: the local address of the new connection with status 0, or a general error. */
    method ReportDial(local: Option<(Str, int)>)
      modifies this`output
      ensures output == old(output) + if local.Some? then Reply(0, local.value.0, local.value.1) else ERROR_BYTES
    {
      if local.None? {
        Write(Reply(GENERAL_ERROR, [], 0));
      } else {
        Write(Reply(SUCCEEDED, local.value.0, local.value.1));
      }
    }
  }
}
