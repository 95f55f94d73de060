/** The cache of the dynamic TLS configuration: three critical sections, any number of handshakes. */
module CertCache {
  /** A certificate, with the identity of its allocation: the code compares pointers. */
  datatype Cert = Cert(id: nat, host: string, notAfter: int)

  datatype Entry = Entry(cert: Cert, createdAt: int, expiresAt: int)

  type Cache = map<string, Entry>

  const CAPACITY: nat := 1024
  const DAY: int := 86_400_000_000_000

  function Lower(s: string): string {
    if s == [] then []
    else [if 'A' <= s[0] <= 'Z' then s[0] - 'A' + 'a' else s[0]] + Lower(s[1..])
  }

  /** The host of a handshake: lower case, without one trailing dot. */
  function Normalised(serverName: string): string {
    var s := Lower(serverName);
    if s != [] && s[|s| - 1] == '.' then s[..|s| - 1] else s
  }

  // ----- the critical sections

  /** The second section: drop the entry only if it is still the one that was found expired. */
  function Dropped(cache: Cache, host: string, seen: Entry): Cache {
    if host in cache && cache[host].cert.id == seen.cert.id && cache[host].expiresAt == seen.expiresAt
    then cache - {host} else cache
  }

  ghost predicate Oldest(cache: Cache, victim: string) {
    victim in cache && forall h :: h in cache ==> cache[victim].createdAt <= cache[h].createdAt
  }

  /** The third section, once the victim is known. */
  function Stored(cache: Cache, victim: string, host: string, e: Entry): Cache {
    (if |cache| >= CAPACITY then cache - {victim} else cache)[host := e]
  }

  class CertificateCache {
    var cache: Cache

    method DropIfUnchanged(host: string, seen: Entry)
      modifies this
      ensures cache == Dropped(old(cache), host, seen)
    {
      if host in cache {
        var current := cache[host];
        if current.cert.id == seen.cert.id && current.expiresAt == seen.expiresAt {
          cache := cache - {host};
        }
      }
    }

    /** The eviction loop, over the map in any order.  An empty name marks "none yet", which is sound
        because no host is empty. */
    method FindOldest() returns (oldestHost: string)
      requires "" !in cache && cache != map[]
      ensures Oldest(cache, oldestHost)
    {
      oldestHost := "";
      var oldestAt := 0;
      var todo := cache.Keys;
      while todo != {}
        invariant todo <= cache.Keys
        invariant oldestHost == "" ==> todo == cache.Keys
        invariant oldestHost != "" ==>
          && oldestHost in cache && oldestAt == cache[oldestHost].createdAt
          && forall h :: h in cache && h !in todo ==> oldestAt <= cache[h].createdAt
        decreases todo
      {
        var h :| h in todo;
        if oldestHost == "" || cache[h].createdAt < oldestAt {
          oldestHost, oldestAt := h, cache[h].createdAt;
        }
        todo := todo - {h};
      }
      assert cache.Keys != {};
    }

    method Store(host: string, cert: Cert, now: int)
      requires "" !in cache && host != ""
      modifies this
      ensures "" !in cache
      ensures exists victim :: (|old(cache)| >= CAPACITY ==> Oldest(old(cache), victim)) &&
                cache == Stored(old(cache), victim, host, Entry(cert, now, cert.notAfter))
    {
      var oldestHost := "";
      if |cache| >= CAPACITY {
        oldestHost := FindOldest();
        cache := cache - {oldestHost};
      }
      cache := cache[host := Entry(cert, now, cert.notAfter)];
      assert cache == Stored(old(cache), oldestHost, host, Entry(cert, now, cert.notAfter));
    }
  }

  // ----- interleaved handshakes

  /** What a handshake does next: read the cache, look at the clock, drop, issue, store. */
  datatype Pc =
    | Read(host: string)
    | Check(host: string, seen: Entry)
    | Drop(host: string, seen: Entry, sawAt: int)
    | Issue(host: string)
    | Store(host: string, cert: Cert)

  /** `at` is the time at which the code looked at the expiry of what it serves, or set it. */
  datatype Reply = Refused | Served(cert: Cert, at: int)

  datatype Next = Goto(pc: Pc) | Answer(reply: Reply)

  /** The cache, the next allocation, and every entry that was ever put into the cache. */
  datatype Shared = Shared(cache: Cache, nextId: nat, stored: map<nat, Entry>)

  /** `asked` is the normalised host that each handshake asked for. */
  datatype Sys = Sys(mem: Shared, pc: map<nat, Pc>, asked: map<nat, string>, replies: map<nat, Reply>)

  const INIT: Sys := Sys(Shared(map[], 0, map[]), map[], map[], map[])

  /** Signing may fail; a full cache offers its oldest entries as victims, in the order of the map. */
  datatype Move =
    | Begin(tid: nat, serverName: string)
    | Act(tid: nat, now: int, signs: bool, victim: string)

  function Do(m: Shared, p: Pc, now: int, signs: bool, victim: string): (Shared, Next) {
    match p
    case Read(h) => (m, Goto(if h in m.cache then Check(h, m.cache[h]) else Issue(h)))
    case Check(h, e) => (m, if now < e.expiresAt then Answer(Served(e.cert, now)) else Goto(Drop(h, e, now)))
    case Drop(h, e, _) => (m.(cache := Dropped(m.cache, h, e)), Goto(Issue(h)))
    case Issue(h) =>
      if signs then (m.(nextId := m.nextId + 1), Goto(Store(h, Cert(m.nextId, h, now + DAY))))
      else (m, Answer(Refused))
    case Store(h, c) =>
      var e := Entry(c, now, c.notAfter);
      (m.(cache := Stored(m.cache, victim, h, e), stored := m.stored[c.id := e]),
       Answer(Served(c, c.notAfter - DAY)))
  }

  function Resume(s: Sys, t: nat, m: Shared, n: Next): Sys {
    match n
    case Goto(p) => s.(mem := m, pc := s.pc[t := p])
    case Answer(r) => s.(mem := m, pc := s.pc - {t}, replies := s.replies[t := r])
  }

  ghost predicate Enabled(m: Shared, p: Pc, victim: string) {
    p.Store? && |m.cache| >= CAPACITY ==> Oldest(m.cache, victim)
  }

  function Opened(s: Sys, t: nat, host: string): Sys {
    var s' := s.(asked := s.asked[t := host]);
    if host == "" then s'.(replies := s.replies[t := Refused]) else s'.(pc := s.pc[t := Read(host)])
  }

  /** Each handshake is one goroutine, so an identifier begins once. */
  ghost function Apply(s: Sys, move: Move): Sys {
    match move
    case Begin(t, name) =>
      if t in s.asked then s else Opened(s, t, Normalised(name))
    case Act(t, now, signs, victim) =>
      if t !in s.pc || !Enabled(s.mem, s.pc[t], victim) then s
      else
        var (m, n) := Do(s.mem, s.pc[t], now, signs, victim);
        Resume(s, t, m, n)
  }

  ghost function Exec(moves: seq<Move>): Sys {
    if moves == [] then INIT else Apply(Exec(moves[..|moves| - 1]), moves[|moves| - 1])
  }

  // ----- invariants

  /** An entry was stored for its host, and its expiry is that of its certificate. */
  ghost predicate Genuine(m: Shared, host: string, e: Entry) {
    && host != "" && e.cert.host == host && e.expiresAt == e.cert.notAfter
    && e.cert.id in m.stored && m.stored[e.cert.id] == e
  }

  ghost predicate MemOk(m: Shared) {
    && |m.cache| <= CAPACITY
    && (forall h :: h in m.cache ==> Genuine(m, h, m.cache[h]))
    && (forall id :: id in m.stored ==> id < m.nextId)
  }

  ghost predicate PcOk(m: Shared, p: Pc) {
    && p.host != ""
    && match p
       case Read(_) => true
       case Check(h, e) => Genuine(m, h, e)
       case Drop(h, e, sawAt) => Genuine(m, h, e) && e.expiresAt <= sawAt
       case Issue(_) => true
       case Store(h, c) => c.host == h && c.id < m.nextId && c.id !in m.stored
  }

  /** A certificate handed out is for the host that was asked for, and had not expired when the code
      looked. */
  predicate ReplyOk(host: string, r: Reply) {
    r.Served? ==> r.cert.host == host && r.at < r.cert.notAfter
  }

  /** Two handshakes never hold the same new certificate. */
  predicate Apart(p: Pc, q: Pc) {
    p.Store? && q.Store? ==> p.cert.id != q.cert.id
  }

  ghost predicate PcsOk(s: Sys) {
    forall t :: t in s.pc ==> t in s.asked && s.pc[t].host == s.asked[t] && PcOk(s.mem, s.pc[t])
  }

  ghost predicate AllApart(s: Sys) {
    forall t, u :: t in s.pc && u in s.pc && t != u ==> Apart(s.pc[t], s.pc[u])
  }

  ghost predicate RepliesOk(s: Sys) {
    forall t :: t in s.replies ==> t in s.asked && ReplyOk(s.asked[t], s.replies[t])
  }

  ghost predicate Inv(s: Sys) {
    MemOk(s.mem) && PcsOk(s) && AllApart(s) && RepliesOk(s)
  }

  lemma StoredSize(cache: Cache, victim: string, host: string, e: Entry)
    requires |cache| <= CAPACITY && (|cache| >= CAPACITY ==> victim in cache)
    ensures |Stored(cache, victim, host, e)| <= CAPACITY
  {
    var kept := if |cache| >= CAPACITY then cache - {victim} else cache;
    assert kept.Keys == if |cache| >= CAPACITY then cache.Keys - {victim} else cache.Keys;
    assert kept[host := e].Keys == kept.Keys + {host};
    assert |kept| == |kept.Keys| && |cache| == |cache.Keys| && |kept[host := e]| == |kept[host := e].Keys|;
  }

  lemma DroppedSize(cache: Cache, host: string, seen: Entry)
    ensures |Dropped(cache, host, seen)| <= |cache|
  {
    var d := Dropped(cache, host, seen);
    assert d.Keys == cache.Keys || d.Keys == cache.Keys - {host};
    assert |d| == |d.Keys| && |cache| == |cache.Keys|;
  }

  lemma StoreOk(m: Shared, h: string, c: Cert, now: int, victim: string)
    requires MemOk(m) && PcOk(m, Store(h, c)) && Enabled(m, Store(h, c), victim)
    ensures var e := Entry(c, now, c.notAfter);
            MemOk(m.(cache := Stored(m.cache, victim, h, e), stored := m.stored[c.id := e]))
  {
    var e := Entry(c, now, c.notAfter);
    var m' := m.(cache := Stored(m.cache, victim, h, e), stored := m.stored[c.id := e]);
    StoredSize(m.cache, victim, h, e);
    forall k | k in m'.cache ensures Genuine(m', k, m'.cache[k]) {
      if k != h {
        assert Genuine(m, k, m.cache[k]);
      }
    }
  }

  /** One operation keeps the memory in order, and leaves its own handshake in order. */
  lemma DoOk(m: Shared, p: Pc, now: int, signs: bool, victim: string)
    requires MemOk(m) && PcOk(m, p) && Enabled(m, p, victim)
    ensures var (m', n) := Do(m, p, now, signs, victim);
            && MemOk(m')
            && (n.Goto? ==> PcOk(m', n.pc) && n.pc.host == p.host)
            && (n.Answer? ==> ReplyOk(p.host, n.reply))
  {
    match p
    case Drop(h, e, _) => DroppedSize(m.cache, h, e);
    case Store(h, c) => StoreOk(m, h, c, now, victim);
    case _ =>
  }

  /** And it leaves every other handshake in order. */
  lemma DoKeepsOthers(m: Shared, p: Pc, now: int, signs: bool, victim: string, q: Pc)
    requires MemOk(m) && PcOk(m, p) && PcOk(m, q) && Apart(p, q)
    ensures var (m', n) := Do(m, p, now, signs, victim);
            PcOk(m', q) && (n.Goto? ==> Apart(n.pc, q))
  {}

  lemma ActStep(s: Sys, t: nat, now: int, signs: bool, victim: string)
    requires Inv(s) && t in s.pc && Enabled(s.mem, s.pc[t], victim)
    ensures Inv(Apply(s, Act(t, now, signs, victim)))
  {
    var p := s.pc[t];
    var (m, n) := Do(s.mem, p, now, signs, victim);
    DoOk(s.mem, p, now, signs, victim);
    forall u | u in s.pc && u != t
      ensures PcOk(m, s.pc[u]) && (n.Goto? ==> Apart(n.pc, s.pc[u]))
    {
      assert Apart(p, s.pc[u]);
      DoKeepsOthers(s.mem, p, now, signs, victim, s.pc[u]);
    }
    ResumeOk(s, t, m, n);
  }

  lemma ResumeApart(s: Sys, t: nat, m: Shared, n: Next)
    requires AllApart(s) && t in s.pc
    requires forall u :: u in s.pc && u != t ==> n.Goto? ==> Apart(n.pc, s.pc[u])
    ensures AllApart(Resume(s, t, m, n))
  {}

  lemma ResumeReplies(s: Sys, t: nat, m: Shared, n: Next)
    requires RepliesOk(s) && t in s.asked && (n.Answer? ==> ReplyOk(s.asked[t], n.reply))
    ensures RepliesOk(Resume(s, t, m, n))
  {}

  lemma ResumeOk(s: Sys, t: nat, m: Shared, n: Next)
    requires Inv(s) && t in s.pc && MemOk(m)
    requires n.Goto? ==> PcOk(m, n.pc) && n.pc.host == s.pc[t].host
    requires n.Answer? ==> ReplyOk(s.pc[t].host, n.reply)
    requires forall u :: u in s.pc && u != t ==> PcOk(m, s.pc[u]) && (n.Goto? ==> Apart(n.pc, s.pc[u]))
    ensures Inv(Resume(s, t, m, n))
  {
    ResumeApart(s, t, m, n);
    ResumeReplies(s, t, m, n);
  }

  lemma OpenedOk(s: Sys, t: nat, host: string)
    requires Inv(s) && t !in s.asked
    ensures Inv(Opened(s, t, host))
  {}

  /** After every interleaving: at most 1024 entries, each for the host it is filed under, and every
      certificate served was issued for the host asked for and unexpired when checked. */
  lemma {:induction false} EveryInterleaving(moves: seq<Move>)
    ensures Inv(Exec(moves))
  {
    if moves != [] {
      var n := |moves| - 1;
      var s := Exec(moves[..n]);
      EveryInterleaving(moves[..n]);
      match moves[n]
      case Begin(t, name) =>
        if t !in s.asked {
          OpenedOk(s, t, Normalised(name));
        }
      case Act(t, now, signs, victim) =>
        if t in s.pc && Enabled(s.mem, s.pc[t], victim) {
          ActStep(s, t, now, signs, victim);
        }
    }
  }

  /** The same, spelled out for one handshake and one entry. */
  lemma ServesTheRightHost(moves: seq<Move>, t: nat, h: string)
    ensures var s := Exec(moves);
            && |s.mem.cache| <= CAPACITY
            && (h in s.mem.cache ==> h != "" && s.mem.cache[h].cert.host == h)
            && (t in s.replies && s.replies[t].Served? ==>
                  && t in s.asked && s.replies[t].cert.host == s.asked[t]
                  && s.replies[t].at < s.replies[t].cert.notAfter)
  {
    EveryInterleaving(moves);
    assert ReplyOk("", Refused);
  }

  /** The conditional delete removes an entry exactly when it is the very entry this handshake has seen
      expire; any entry another handshake has put there meanwhile stays. */
  lemma DropsOnlyWhatExpired(moves: seq<Move>, t: nat, act: Move)
    requires t in Exec(moves).pc && Exec(moves).pc[t].Drop? && act.Act? && act.tid == t
    ensures var s, s' := Exec(moves), Exec(moves + [act]);
            var p, cache := s.pc[t], s.mem.cache;
            && p.seen.expiresAt <= p.sawAt
            && s'.mem.cache == (if p.host in cache && cache[p.host] == p.seen then cache - {p.host} else cache)
            && t in s'.pc && s'.pc[t] == Issue(p.host)
  {
    EveryInterleaving(moves);
    Then(moves, act);
    var s := Exec(moves);
    if s.pc[t].host in s.mem.cache {
      assert Genuine(s.mem, s.pc[t].host, s.mem.cache[s.pc[t].host]);
    }
  }

  // ----- the cache is used

  /** Lower case changes the letters A to Z and nothing else; one trailing dot is dropped. */
  lemma {:induction false} LowerIs(s: string)
    ensures |Lower(s)| == |s|
    ensures forall i :: 0 <= i < |s| ==>
              Lower(s)[i] as int == s[i] as int + if 'A' <= s[i] <= 'Z' then 'a' as int - 'A' as int else 0
  {
    if s != [] {
      LowerIs(s[1..]);
      forall i | 1 <= i < |s| ensures Lower(s)[i] == Lower(s[1..])[i - 1] && s[i] == s[1..][i - 1] {}
    }
  }

  lemma {:induction false} LowerConcat(a: string, b: string)
    ensures Lower(a + b) == Lower(a) + Lower(b)
  {
    if a == [] {
      assert a + b == b;
    } else {
      LowerConcat(a[1..], b);
      assert (a + b)[1..] == a[1..] + b;
    }
  }

  /** A trailing dot is dropped, but only one. */
  lemma DotIsDropped(name: string)
    ensures Normalised(name + ".") == Lower(name)
  {
    LowerConcat(name, ".");
    var low := Lower(name);
    assert Lower(".") == ['.'] + Lower("."[1..]);
    assert (low + ['.'])[..|low|] == low;
  }

  lemma NothingElseIsDropped(name: string)
    requires name == "" || name[|name| - 1] != '.'
    ensures Normalised(name) == Lower(name)
  {
    LowerIs(name);
    if name != "" {
      var c, d := name[|name| - 1], Lower(name)[|name| - 1];
      assert d as int == c as int || 'a' as int <= d as int;
    }
  }

  lemma Then(moves: seq<Move>, m: Move)
    ensures Exec(moves + [m]) == Apply(Exec(moves), m)
  {
    assert (moves + [m])[..|moves|] == moves;
  }

  /** A handshake asks for its server name in lower case, less one trailing dot, and reads the cache next; without a
      name it is refused.  What it asks for never changes. */
  lemma BeginsWithItsHost(moves: seq<Move>, t: nat, name: string)
    requires t !in Exec(moves).asked
    ensures var s, s' := Exec(moves), Exec(moves + [Begin(t, name)]);
            && s'.mem == s.mem && t in s'.asked && s'.asked[t] == Normalised(name)
            && (if Normalised(name) == "" then t in s'.replies && s'.replies[t] == Refused
                else t in s'.pc && s'.pc[t] == Read(Normalised(name)))
  {
    Then(moves, Begin(t, name));
  }

  lemma {:induction false} AskedIsFixed(moves: seq<Move>, later: seq<Move>, t: nat)
    requires t in Exec(moves).asked
    ensures t in Exec(moves + later).asked && Exec(moves + later).asked[t] == Exec(moves).asked[t]
  {
    if later == [] {
      assert moves + later == moves;
    } else {
      var n := |later| - 1;
      AskedIsFixed(moves, later[..n], t);
      assert moves + later == moves + later[..n] + [later[n]];
      Then(moves + later[..n], later[n]);
    }
  }

  ghost predicate Elsewhere(moves: seq<Move>, t: nat) {
    forall i :: 0 <= i < |moves| ==> moves[i].tid != t
  }

  lemma OtherMove(s: Sys, m: Move, t: nat)
    requires t in s.pc && m.tid != t
    ensures t in Apply(s, m).pc && Apply(s, m).pc[t] == s.pc[t]
  {}

  /** What others do does not move a handshake. */
  lemma {:induction false} StaysPut(moves: seq<Move>, others: seq<Move>, t: nat)
    requires t in Exec(moves).pc && Elsewhere(others, t)
    ensures t in Exec(moves + others).pc && Exec(moves + others).pc[t] == Exec(moves).pc[t]
  {
    if others == [] {
      assert moves + others == moves;
    } else {
      var n := |others| - 1;
      StaysPut(moves, others[..n], t);
      assert moves + others == moves + others[..n] + [others[n]];
      Then(moves + others[..n], others[n]);
      OtherMove(Exec(moves + others[..n]), others[n], t);
    }
  }

  /** A handshake whose host is in the cache when it reads, and that looks at the clock before that entry expires, is
      served the very certificate it found, whatever others do in between; neither of its steps changes anything
      in memory. */
  lemma LiveEntryIsServed(moves: seq<Move>, t: nat, read: Move, others: seq<Move>, look: Move)
    requires var s := Exec(moves); t in s.pc && s.pc[t].Read? && s.pc[t].host in s.mem.cache
    requires read.Act? && read.tid == t && look.Act? && look.tid == t && Elsewhere(others, t)
    requires look.now < Exec(moves).mem.cache[Exec(moves).pc[t].host].expiresAt
    ensures var s, e := Exec(moves), Exec(moves).mem.cache[Exec(moves).pc[t].host];
            var before, after := moves + [read] + others, moves + [read] + others + [look];
            && Exec(moves + [read]).mem == s.mem
            && Exec(after).mem == Exec(before).mem
            && t !in Exec(after).pc && t in Exec(after).replies && Exec(after).replies[t] == Served(e.cert, look.now)
  {
    Then(moves, read);
    StaysPut(moves + [read], others, t);
    Then(moves + [read] + others, look);
  }

  /** The move is a handshake finding its host absent from the cache, or what it found there expired. */
  predicate FindsNothing(s: Sys, m: Move, t: nat) {
    && m.Act? && m.tid == t && t in s.pc
    && match s.pc[t]
       case Read(h) => h !in s.mem.cache
       case Check(h, e) => e.expiresAt <= m.now
       case _ => false
  }

  predicate PastLook(s: Sys, t: nat) {
    t in s.pc && !s.pc[t].Read? && !s.pc[t].Check?
  }

  lemma LookStep(s: Sys, m: Move, t: nat)
    requires PastLook(Apply(s, m), t)
    ensures PastLook(s, t) || FindsNothing(s, m, t)
  {
    if m.tid != t && t in s.pc {
      OtherMove(s, m, t);
    }
  }

  /** A certificate is issued only for a handshake that has found none, or an expired one. */
  lemma {:induction false} IssuesOnlyWhatIsMissing(moves: seq<Move>, t: nat)
    requires PastLook(Exec(moves), t)
    ensures exists k :: 0 <= k < |moves| && FindsNothing(Exec(moves[..k]), moves[k], t)
  {
    var n := |moves| - 1;
    LookStep(Exec(moves[..n]), moves[n], t);
    if PastLook(Exec(moves[..n]), t) {
      IssuesOnlyWhatIsMissing(moves[..n], t);
      var k :| 0 <= k < n && FindsNothing(Exec(moves[..n][..k]), moves[..n][k], t);
      assert moves[..n][..k] == moves[..k];
      assert FindsNothing(Exec(moves[..k]), moves[k], t);
    }
  }

  /** A new certificate is for the host, of a new identity, and good for a day; without a signature the handshake
      is refused, and the memory stays as it is. */
  lemma NewCertificateIs(moves: seq<Move>, t: nat, act: Move)
    requires act.Act? && act.tid == t && t in Exec(moves).pc && Exec(moves).pc[t].Issue?
    ensures var s, s' := Exec(moves), Exec(moves + [act]);
            var h := s.pc[t].host;
            if act.signs then
              && s'.mem.cache == s.mem.cache && t in s'.pc
              && s'.pc[t] == Store(h, Cert(s.mem.nextId, h, act.now + 24 * 60 * 60 * 1_000_000_000))
            else s'.mem == s.mem && t !in s'.pc && s'.replies == s.replies[t := Refused]
  {
    Then(moves, act);
  }

  /** It is then filed under its host with its own expiry, and served.  A cache of fewer than 1024 entries keeps all
      others; a full one loses one of the oldest. */
  lemma NewCertificateIsFiled(moves: seq<Move>, t: nat, act: Move)
    requires act.Act? && act.tid == t && t in Exec(moves).pc && Exec(moves).pc[t].Store?
    requires |Exec(moves).mem.cache| >= 1024 ==> Oldest(Exec(moves).mem.cache, act.victim)
    ensures var s, s' := Exec(moves), Exec(moves + [act]);
            var h, c, was := s.pc[t].host, s.pc[t].cert, s.mem.cache;
            && h in s'.mem.cache && s'.mem.cache[h] == Entry(c, act.now, c.notAfter)
            && (forall k :: k != h ==> (k in s'.mem.cache <==> k in was && (|was| >= 1024 ==> k != act.victim)))
            && (forall k :: k != h && k in s'.mem.cache ==> s'.mem.cache[k] == was[k])
            && t !in s'.pc && t in s'.replies && s'.replies[t].Served? && s'.replies[t].cert == c
  {
    Then(moves, act);
  }
}
