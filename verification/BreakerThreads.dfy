/** The circuit breaker as the lock-free protocol it is: any number of goroutines, each load, store,
    add, swap or compare-and-swap a step of its own, interleaved in any order. */
module BreakerThreads {
  import opened Breaker

  /** A call a goroutine makes: `Available`, the response hook on an ordinary response, the response hook on
      a response that switches protocols, or the error hook. */
  datatype Call = Asking | Succeeding | Upgrading | Failing

  /** The atomic operation a goroutine does next. */
  datatype Pc =
    | AskState | AskHealthy | AskClock | AskDue(read: int) | AskSwap | AskRestore
    | OkReset | OkSwap | OkRestore | OkClear
    | ErrState | ErrCount
    | TripHealth | TripReset | TripClock | TripDeadline(read: int) | TripSwap

  /** What a goroutine does after an operation: go on, return, or return an answer. */
  datatype Next = Goto(pc: Pc) | Return | Reply(ok: bool)

  /** The four atomics, and the history: circuits opened, those of them opened from half-open, probes
      granted (with their times) and circuits closed. */
  datatype Memory = Memory(
    state: State, healthy: bool, retryAfter: int, failures: int,
    trips: nat, reopens: nat, grants: seq<int>, closes: nat)

  /** The memory; the goroutines inside a call; those that were told yes and whose request has not ended;
      those whose response switched protocols, which may still fail; and the last time read. */
  datatype Sys = Sys(mem: Memory, pc: map<nat, Pc>, admitted: set<nat>, upgraded: set<nat>, clock: int)

  const INIT: Sys := Sys(Memory(Closed, true, 0, 0, 0, 0, [], 0), map[], {}, {}, 0)

  /** The scheduler lets a goroutine start a call or do its next operation at time `now`; or a goroutine
      drops its request before any hook runs: it was picked for another backend, found no free slot, was
      answered by a middleware, or became a tunnel. */
  datatype Move = Start(tid: nat, call: Call) | Op(tid: nat, now: int) | Abandon(tid: nat)

  function Entry(call: Call): Pc {
    match call
    case Asking => AskState
    case Succeeding | Upgrading => OkReset
    case Failing => ErrState
  }

  /** A goroutine with a request in hand ends it before it asks again, and only a goroutine with a request in
      hand gets to a hook. */
  predicate Startable(s: Sys, t: nat, call: Call) {
    t !in s.pc &&
    match call
    case Asking => t !in s.admitted && t !in s.upgraded
    case Succeeding | Upgrading => t in s.admitted
    case Failing => t in s.admitted || t in s.upgraded
  }

  function Begin(s: Sys, t: nat, call: Call): Sys {
    s.(pc := s.pc[t := Entry(call)],
       admitted := s.admitted - {t},
       upgraded := if call == Upgrading then s.upgraded + {t} else s.upgraded - {t})
  }

  /** One atomic operation on the memory. */
  function Do(m: Memory, p: Pc, now: int): (Memory, Next) {
    match p
    case AskState =>
      (m, match m.state case Closed => Goto(AskHealthy) case Open => Goto(AskClock) case HalfOpen => Reply(false))
    case AskHealthy => (m, Reply(m.healthy))
    case AskClock => (m, Goto(AskDue(now)))
    case AskDue(read) => (m, if read < m.retryAfter then Reply(false) else Goto(AskSwap))
    case AskSwap =>
      if m.state == Open then (m.(state := HalfOpen, grants := m.grants + [now]), Goto(AskRestore))
      else (m, Reply(false))
    case AskRestore => (m.(healthy := true), Reply(true))
    case OkReset => (m.(failures := 0), Goto(OkSwap))
    case OkSwap =>
      if m.state == HalfOpen then (m.(state := Closed, closes := m.closes + 1), Goto(OkRestore))
      else (m, Return)
    case OkRestore => (m.(healthy := true), Goto(OkClear))
    case OkClear => (m.(retryAfter := 0), Return)
    case ErrState =>
      (m, match m.state case HalfOpen => Goto(TripHealth) case Closed => Goto(ErrCount) case Open => Return)
    case ErrCount =>
      (m.(failures := m.failures + 1), if m.failures + 1 >= TRIP_AT then Goto(TripHealth) else Return)
    case TripHealth => (m.(healthy := false), Goto(TripReset))
    case TripReset => (m.(failures := 0), Goto(TripClock))
    case TripClock => (m, Goto(TripDeadline(now)))
    case TripDeadline(read) => (m.(retryAfter := read + COOL_DOWN), Goto(TripSwap))
    case TripSwap =>
      (m.(state := Open,
          trips := m.trips + (if m.state == Open then 0 else 1),
          reopens := m.reopens + (if m.state == HalfOpen then 1 else 0)),
       Return)
  }

  function Resume(s: Sys, t: nat, m: Memory, n: Next): Sys {
    match n
    case Goto(p) => s.(mem := m, pc := s.pc[t := p])
    case Return | Reply(false) => s.(mem := m, pc := s.pc - {t})
    case Reply(true) => s.(mem := m, pc := s.pc - {t}, admitted := s.admitted + {t})
  }

  function Apply(s: Sys, move: Move): Sys {
    match move
    case Start(t, call) => if Startable(s, t, call) then Begin(s, t, call) else s
    case Op(t, now) =>
      if t !in s.pc then s
      else
        var (m, n) := Do(s.mem, s.pc[t], now);
        Resume(s.(clock := now), t, m, n)
    case Abandon(t) => if t in s.pc then s else s.(admitted := s.admitted - {t}, upgraded := s.upgraded - {t})
  }

  function Exec(s: Sys, moves: seq<Move>): Sys {
    if moves == [] then s else Apply(Exec(s, moves[..|moves| - 1]), moves[|moves| - 1])
  }

  // ----- what every interleaving keeps

  /** A goroutine that will write `Healthy` or open the circuit: it is between a compare-and-swap and
      its `Healthy.Store(true)`, or between the first store of `openCircuit` and its swap. */
  predicate Repairing(p: Pc) {
    p.AskRestore? || p.OkRestore? || p.TripReset? || p.TripClock? || p.TripDeadline? || p.TripSwap?
  }

  /** A goroutine that is about to reset the failure counter inside `openCircuit`. */
  predicate Resetting(p: Pc) {
    p.TripHealth? || p.TripReset?
  }

  ghost function Resetters(s: Sys): set<nat> {
    set t | t in s.pc && Resetting(s.pc[t])
  }

  predicate Suspect(m: Memory) {
    m.state != Open && !m.healthy
  }

  ghost predicate NotWedged(s: Sys) {
    Suspect(s.mem) ==> exists t :: t in s.pc && Repairing(s.pc[t])
  }

  ghost predicate CountCovered(s: Sys) {
    0 <= s.mem.failures <= TRIP_AT - 1 + |Resetters(s)|
  }

  /** Every probe answers one opening, and every opening gives at most one probe. */
  predicate ProbesBalance(m: Memory) {
    && m.trips == |m.grants| + (if m.state == Open then 1 else 0)
    && |m.grants| == m.closes + m.reopens + (if m.state == HalfOpen then 1 else 0)
  }

  lemma WedgeLocal(m: Memory, p: Pc, now: int)
    ensures var (m', n) := Do(m, p, now);
            Suspect(m') ==> (n.Goto? && Repairing(n.pc)) || (Suspect(m) && !Repairing(p))
  {}

  /** How an operation may move the failure counter, next to where it takes its goroutine. */
  predicate CountMove(before: int, p: Pc, after: int, n: Next) {
    var resetting := n.Goto? && Resetting(n.pc);
    || after == 0
    || (after == before && (Resetting(p) ==> resetting))
    || (after == before + 1 && !Resetting(p) && (after < TRIP_AT || resetting))
  }

  lemma CountLocal(m: Memory, p: Pc, now: int)
    ensures var (m', n) := Do(m, p, now); CountMove(m.failures, p, m'.failures, n)
  {}

  lemma ResettersAfter(s: Sys, t: nat, m: Memory, n: Next)
    requires t in s.pc
    ensures Resetters(Resume(s, t, m, n)) ==
            if n.Goto? && Resetting(n.pc) then Resetters(s) + {t} else Resetters(s) - {t}
  {}

  lemma CountResume(s: Sys, t: nat, m: Memory, n: Next)
    requires CountCovered(s) && t in s.pc && CountMove(s.mem.failures, s.pc[t], m.failures, n)
    ensures CountCovered(Resume(s, t, m, n))
  {
    ResettersAfter(s, t, m, n);
    var r := Resetters(s);
    assert t in r <==> Resetting(s.pc[t]);
    assert |r + {t}| == |r| + (if t in r then 0 else 1) && |r - {t}| == |r| - (if t in r then 1 else 0);
  }

  lemma WedgeResume(s: Sys, t: nat, m: Memory, n: Next)
    requires NotWedged(s) && t in s.pc
    requires Suspect(m) ==> (n.Goto? && Repairing(n.pc)) || (Suspect(s.mem) && !Repairing(s.pc[t]))
    ensures NotWedged(Resume(s, t, m, n))
  {
    var s' := Resume(s, t, m, n);
    if Suspect(m) {
      if n.Goto? && Repairing(n.pc) {
        assert t in s'.pc && Repairing(s'.pc[t]);
      } else {
        var w :| w in s.pc && Repairing(s.pc[w]);
        assert w in s'.pc && Repairing(s'.pc[w]);
      }
    }
  }

  lemma WedgeStep(s: Sys, move: Move)
    requires NotWedged(s)
    ensures NotWedged(Apply(s, move))
  {
    var t, s' := move.tid, Apply(s, move);
    if move.Op? && t in s.pc {
      var (m, n) := Do(s.mem, s.pc[t], move.now);
      WedgeLocal(s.mem, s.pc[t], move.now);
      assert NotWedged(s.(clock := move.now));
      WedgeResume(s.(clock := move.now), t, m, n);
    } else if Suspect(s.mem) {
      var w :| w in s.pc && Repairing(s.pc[w]);
      assert w in s'.pc && Repairing(s'.pc[w]);
    }
  }

  lemma CountStep(s: Sys, move: Move)
    requires CountCovered(s)
    ensures CountCovered(Apply(s, move))
  {
    var t := move.tid;
    if move.Op? && t in s.pc {
      var (m, n) := Do(s.mem, s.pc[t], move.now);
      CountLocal(s.mem, s.pc[t], move.now);
      assert Resetters(s.(clock := move.now)) == Resetters(s);
      CountResume(s.(clock := move.now), t, m, n);
    } else {
      assert Resetters(Apply(s, move)) == Resetters(s);
    }
  }

  lemma BalanceStep(m: Memory, p: Pc, now: int)
    requires ProbesBalance(m)
    ensures ProbesBalance(Do(m, p, now).0)
  {}

  /** Holds after every interleaving of any number of goroutines. */
  lemma {:induction false} EveryInterleaving(moves: seq<Move>)
    ensures var s := Exec(INIT, moves); NotWedged(s) && CountCovered(s) && ProbesBalance(s.mem)
  {
    if moves == [] {
    } else {
      var n := |moves| - 1;
      var s := Exec(INIT, moves[..n]);
      EveryInterleaving(moves[..n]);
      WedgeStep(s, moves[n]);
      CountStep(s, moves[n]);
      if moves[n].Op? && moves[n].tid in s.pc {
        BalanceStep(s.mem, s.pc[moves[n].tid], moves[n].now);
      }
    }
  }

  /** No resting state is wedged: with no call in flight, a circuit that is not open is healthy, its
      counter is below five, and every trip but a still open one has granted exactly one probe. */
  lemma QuiescentIsSound(moves: seq<Move>)
    requires Exec(INIT, moves).pc == map[]
    ensures var m := Exec(INIT, moves).mem;
            && (m.state != Open ==> m.healthy)
            && 0 <= m.failures < TRIP_AT
            && m.trips == |m.grants| + (if m.state == Open then 1 else 0)
  {
    EveryInterleaving(moves);
    assert Resetters(Exec(INIT, moves)) == {};
  }

  // ----- nobody gets through an open circuit but with a probe

  /** The move lets in a goroutine that had found the circuit open. */
  predicate LetsInProbe(s: Sys, move: Move) {
    && move.Op? && move.tid in s.pc && !s.pc[move.tid].AskHealthy?
    && move.tid !in s.admitted && move.tid in Apply(s, move).admitted
  }

  function ProbesLetIn(moves: seq<Move>): nat {
    if moves == [] then 0
    else
      var n := |moves| - 1;
      ProbesLetIn(moves[..n]) + (if LetsInProbe(Exec(INIT, moves[..n]), moves[n]) then 1 else 0)
  }

  /** Goroutines that have won a probe and are about to be told. */
  ghost function Winners(s: Sys): set<nat> {
    set t | t in s.pc && s.pc[t].AskRestore?
  }

  predicate InAvailable(p: Pc) {
    p.AskState? || p.AskHealthy? || p.AskClock? || p.AskDue? || p.AskSwap? || p.AskRestore?
  }

  /** Nobody inside `Available` has a request in hand. */
  ghost predicate AskersAreEmptyHanded(s: Sys) {
    forall t :: t in s.pc && InAvailable(s.pc[t]) ==> t !in s.admitted
  }

  lemma EmptyHandedStep(s: Sys, move: Move)
    requires AskersAreEmptyHanded(s)
    ensures AskersAreEmptyHanded(Apply(s, move))
  {}

  /** A probe is granted with the step to the restore, and a yes comes from there or from a closed circuit. */
  lemma ProbeLocal(m: Memory, p: Pc, now: int)
    ensures var (m', n) := Do(m, p, now);
            && |m'.grants| == |m.grants| + (if n == Goto(AskRestore) then 1 else 0)
            && (n == Goto(AskRestore) ==> p.AskSwap?)
            && (n == Reply(true) ==> p.AskHealthy? || p.AskRestore?)
            && (p.AskRestore? ==> n == Reply(true))
  {}

  lemma WinnersResume(s: Sys, t: nat, m: Memory, n: Next)
    requires t in s.pc
    ensures Winners(Resume(s, t, m, n)) == if n == Goto(AskRestore) then Winners(s) + {t} else Winners(s) - {t}
  {}

  lemma WinnersAfter(s: Sys, move: Move)
    requires AskersAreEmptyHanded(s)
    ensures |Winners(Apply(s, move))| + (if LetsInProbe(s, move) then 1 else 0) ==
            |Winners(s)| + |Apply(s, move).mem.grants| - |s.mem.grants|
  {
    var t, w := move.tid, Winners(s);
    if move.Op? && t in s.pc {
      var (m, n) := Do(s.mem, s.pc[t], move.now);
      ProbeLocal(s.mem, s.pc[t], move.now);
      WinnersResume(s.(clock := move.now), t, m, n);
      assert Winners(s.(clock := move.now)) == w;
      assert t in w <==> s.pc[t].AskRestore?;
      assert |w + {t}| == |w| + (if t in w then 0 else 1) && |w - {t}| == |w| - (if t in w then 1 else 0);
    } else {
      assert Winners(Apply(s, move)) == w;
    }
  }

  /** Under every interleaving, those let in through an open circuit and those about to be are as many as the probes
      granted: who loses the swap is refused. */
  lemma {:induction false} OnlyProbesGetIn(moves: seq<Move>)
    ensures var s := Exec(INIT, moves);
            AskersAreEmptyHanded(s) && ProbesLetIn(moves) + |Winners(s)| == |s.mem.grants|
  {
    if moves == [] {
      assert Winners(INIT) == {};
    } else {
      var n := |moves| - 1;
      OnlyProbesGetIn(moves[..n]);
      EmptyHandedStep(Exec(INIT, moves[..n]), moves[n]);
      WinnersAfter(Exec(INIT, moves[..n]), moves[n]);
    }
  }

  // ----- a call that nobody interrupts is the atomic call

  function View(m: Memory): Circuit {
    Circuit(false, m.state, m.healthy, m.retryAfter, m.failures)
  }

  function Atomic(c: Circuit, call: Call, now: int): Circuit {
    match call
    case Asking => Asked(c, now)
    case Succeeding | Upgrading => Succeeded(c)
    case Failing => Failed(c, now)
  }

  /** The operations from `p` on until the call returns, uninterrupted. */
  function Unbroken(m: Memory, p: Pc, now: int): (Memory, Next)
    decreases Rank(p)
  {
    var (m', n) := Do(m, p, now);
    if n.Goto? then Unbroken(m', n.pc, now) else (m', n)
  }

  /** Operations left, at most. */
  function Rank(p: Pc): nat {
    match p
    case AskState => 5 case AskHealthy => 0 case AskClock => 4 case AskDue(_) => 3 case AskSwap => 2 case AskRestore => 0
    case OkReset => 3 case OkSwap => 2 case OkRestore => 1 case OkClear => 0
    case ErrState => 7 case ErrCount => 6
    case TripHealth => 5 case TripReset => 4 case TripClock => 3 case TripDeadline(_) => 2 case TripSwap => 0
  }

  function Solo(s: Sys, t: nat, call: Call, now: int): Sys {
    var (m, n) := Unbroken(s.mem, Entry(call), now);
    Resume(Begin(s, t, call).(clock := now), t, m, n)
  }

  lemma UnbrokenTrip(m: Memory, now: int)
    ensures var (m', n) := Unbroken(m, TripHealth, now);
            n == Return && m'.grants == m.grants && View(m') == Tripped(View(m), now)
  {
    var m1 := Do(m, TripHealth, now).0;
    var m2 := Do(m1, TripReset, now).0;
    var m3 := Do(m2, TripDeadline(now), now).0;
    assert Unbroken(m, TripHealth, now) == Unbroken(m2, TripClock, now) == Unbroken(m3, TripSwap, now);
  }

  lemma UnbrokenAsk(m: Memory, now: int)
    ensures var (m', n) := Unbroken(m, AskState, now);
            && View(m') == Asked(View(m), now) && n == Reply(Answer(View(m), now))
            && m'.grants == if m.state == Open && m.retryAfter <= now then m.grants + [now] else m.grants
  {
    if m.state == Open {
      assert Unbroken(m, AskState, now) == Unbroken(m, AskDue(now), now);
      if m.retryAfter <= now {
        assert Unbroken(m, AskDue(now), now) == Unbroken(Do(m, AskSwap, now).0, AskRestore, now);
      }
    }
  }

  lemma UnbrokenOk(m: Memory, now: int)
    ensures var (m', n) := Unbroken(m, OkReset, now);
            n == Return && m'.grants == m.grants && View(m') == Succeeded(View(m))
  {
    var m1 := Do(m, OkReset, now).0;
    assert Unbroken(m, OkReset, now) == Unbroken(m1, OkSwap, now);
    if m1.state == HalfOpen {
      var m2 := Do(m1, OkSwap, now).0;
      assert Unbroken(m1, OkSwap, now) == Unbroken(Do(m2, OkRestore, now).0, OkClear, now);
    }
  }

  /** The interleaved protocol refines the atomic one: a call that runs without interruption has
      exactly the atomic effect, lets its goroutine in exactly on the atomic yes, and leaves every other
      goroutine where it was. */
  lemma SoloIsAtomic(s: Sys, t: nat, call: Call, now: int)
    requires Startable(s, t, call)
    ensures var s' := Solo(s, t, call, now);
            && View(s'.mem) == Atomic(View(s.mem), call, now)
            && s'.pc == s.pc && s'.clock == now
            && s'.admitted == (if call == Asking && Answer(View(s.mem), now) then s.admitted + {t} else s.admitted - {t})
            && s'.upgraded == (if call == Upgrading then s.upgraded + {t} else s.upgraded - {t})
            && s'.mem.grants == if call == Asking && s.mem.state == Open && s.mem.retryAfter <= now
                                then s.mem.grants + [now] else s.mem.grants
  {
    match call
    case Asking => UnbrokenAsk(s.mem, now);
    case Succeeding | Upgrading => UnbrokenOk(s.mem, now);
    case Failing =>
      UnbrokenTrip(s.mem, now);
      UnbrokenTrip(Do(s.mem, ErrCount, now).0, now);
  }

  /** An error hook that finds the circuit open is over at once, whoever opened it: the memory stays as it is. */
  lemma OpenCircuitIgnoresErrors(s: Sys, t: nat, now: int)
    requires t in s.pc && s.pc[t].ErrState? && s.mem.state == Open
    ensures var s' := Apply(s, Op(t, now)); s'.mem == s.mem && s'.pc == s.pc - {t}
  {}

  /** From every reachable resting state, the next caller is let in exactly when the circuit is closed, or
      open and past its deadline. */
  lemma QuiescentAnswer(moves: seq<Move>, t: nat, now: int)
    requires Exec(INIT, moves).pc == map[] && Startable(Exec(INIT, moves), t, Asking)
    ensures var s := Exec(INIT, moves);
            t in Solo(s, t, Asking, now).admitted <==>
            s.mem.state == Closed || (s.mem.state == Open && s.mem.retryAfter <= now)
  {
    QuiescentIsSound(moves);
    SoloIsAtomic(Exec(INIT, moves), t, Asking, now);
  }
}
