/** Registering servers and shutting them down: a mutex, a once, and any number of goroutines. */
module Lifecycle {
  datatype Call = Register(server: nat) | Shutdown

  /** The body of `Shutdown` runs once; later callers wait for its end. */
  datatype Once = NotStarted | Running(runner: nat) | Finished

  datatype Mutex = Free | HeldBy(owner: nat)

  datatype Pc =
    | RegLock(server: nat)      // before the mutex
    | RegBody(server: nat)      // holds it: refuse or append
    | RegUnlock(server: nat)    // refused or on a list
    | ShutEnter                 // before the once
    | ShutWait                  // another goroutine is in the body
    | ShutLock                  // in the body, before the mutex
    | ShutStop                  // holds it: set `stopped`
    | Closing(todo: set<nat>)   // one goroutine per server still to be shut down
    | CloseDone                 // all of them have ended
    | ShutUnlock

  /** `accepted` are the servers on the lists, `refused` those closed by `register*`, `closed` all that
      were shut down or closed, `returned` those whose `register*` has returned; `doneCloses`, `bodies` and
      `shutdowns` count closings of `done`, runs of the body, and calls of `Shutdown` that have returned. */
  datatype Server = Server(
    mutex: Mutex, once: Once, stopped: bool,
    accepted: set<nat>, refused: set<nat>, closed: set<nat>, returned: set<nat>,
    doneCloses: nat, bodies: nat, shutdowns: nat)

  datatype Next = Goto(pc: Pc) | Blocked | Return

  datatype Sys = Sys(mem: Server, pc: map<nat, Pc>)

  const INIT: Sys := Sys(Server(Free, NotStarted, false, {}, {}, {}, {}, 0, 0, 0), map[])

  /** `which` names the server whose shutdown ends next. */
  datatype Move = Begin(tid: nat, call: Call) | Act(tid: nat, which: nat)

  function Do(m: Server, t: nat, p: Pc, which: nat): (Server, Next) {
    match p
    case RegLock(srv) => if m.mutex == Free then (m.(mutex := HeldBy(t)), Goto(RegBody(srv))) else (m, Blocked)
    case RegBody(srv) =>
      if m.stopped then (m.(refused := m.refused + {srv}, closed := m.closed + {srv}), Goto(RegUnlock(srv)))
      else (m.(accepted := m.accepted + {srv}), Goto(RegUnlock(srv)))
    case RegUnlock(srv) => (m.(mutex := Free, returned := m.returned + {srv}), Return)
    case ShutEnter =>
      (match m.once
       case NotStarted => (m.(once := Running(t), bodies := m.bodies + 1), Goto(ShutLock))
       case Running(_) => (m, Goto(ShutWait))
       case Finished => (m.(shutdowns := m.shutdowns + 1), Return))
    case ShutWait => if m.once == Finished then (m.(shutdowns := m.shutdowns + 1), Return) else (m, Blocked)
    case ShutLock => if m.mutex == Free then (m.(mutex := HeldBy(t)), Goto(ShutStop)) else (m, Blocked)
    case ShutStop => (m.(stopped := true), Goto(Closing(m.accepted)))
    case Closing(todo) =>
      if todo == {} then (m, Goto(CloseDone))
      else if which in todo then (m.(closed := m.closed + {which}), Goto(Closing(todo - {which})))
      else (m, Blocked)
    case CloseDone => (m.(doneCloses := m.doneCloses + 1), Goto(ShutUnlock))
    case ShutUnlock => (m.(mutex := Free, once := Finished, shutdowns := m.shutdowns + 1), Return)
  }

  function Resume(s: Sys, t: nat, m: Server, n: Next): Sys {
    match n
    case Goto(p) => Sys(m, s.pc[t := p])
    case Blocked => s
    case Return => Sys(m, s.pc - {t})
  }

  function Apply(s: Sys, move: Move): Sys {
    match move
    case Begin(t, call) =>
      if t in s.pc then s
      else s.(pc := s.pc[t := match call case Register(srv) => RegLock(srv) case Shutdown => ShutEnter])
    case Act(t, which) =>
      if t !in s.pc then s
      else
        var (m, n) := Do(s.mem, t, s.pc[t], which);
        Resume(s, t, m, n)
  }

  function Exec(moves: seq<Move>): Sys {
    if moves == [] then INIT else Apply(Exec(moves[..|moves| - 1]), moves[|moves| - 1])
  }

  // ----- invariants

  predicate Holds(p: Pc) {
    p.RegBody? || p.RegUnlock? || p.ShutStop? || p.Closing? || p.CloseDone? || p.ShutUnlock?
  }

  predicate InBody(p: Pc) {
    p.ShutLock? || p.ShutStop? || p.Closing? || p.CloseDone? || p.ShutUnlock?
  }

  /** What the memory must look like for a goroutine at `p`. */
  predicate PcOk(m: Server, t: nat, p: Pc) {
    && (Holds(p) <==> m.mutex == HeldBy(t))
    && (InBody(p) <==> m.once == Running(t))
    && (p.RegUnlock? ==> p.server in m.accepted + m.refused)
    && (p.ShutWait? ==> m.once != NotStarted)
    && (p.ShutLock? || p.ShutStop? ==> !m.stopped)
    && (p.Closing? ==> m.stopped && m.accepted <= m.closed + p.todo)
    && (p.CloseDone? ==> m.stopped && m.accepted <= m.closed)
    && (p.ShutUnlock? ==> m.stopped && m.accepted <= m.closed)
    && (InBody(p) ==> m.doneCloses == if p.ShutUnlock? then 1 else 0)
  }

  predicate MemOk(m: Server) {
    && m.refused <= m.closed && m.returned <= m.accepted + m.refused
    && m.bodies == (if m.once == NotStarted then 0 else 1)
    && (m.once == NotStarted ==> !m.stopped && m.doneCloses == 0)
    && (m.once == Finished ==> m.stopped && m.doneCloses == 1 && m.accepted <= m.closed)
    && m.doneCloses <= 1
    && (!m.stopped ==> m.refused == {})
    && (m.shutdowns > 0 ==> m.once == Finished)
  }

  ghost predicate Inv(s: Sys) {
    && MemOk(s.mem)
    && (forall t :: t in s.pc ==> PcOk(s.mem, t, s.pc[t]))
    && (s.mem.mutex.HeldBy? ==> s.mem.mutex.owner in s.pc)
    && (s.mem.once.Running? ==> s.mem.once.runner in s.pc)
  }

  /** The operation of a goroutine keeps the memory and itself in order. */
  lemma DoOk(m: Server, t: nat, p: Pc, which: nat)
    requires MemOk(m) && PcOk(m, t, p)
    ensures var (m', n) := Do(m, t, p, which);
            && (n.Goto? ==> MemOk(m') && PcOk(m', t, n.pc))
            && (n.Return? ==> MemOk(m') && m'.mutex != HeldBy(t) && m'.once != Running(t))
  {}

  /** And every other goroutine. */
  lemma DoKeepsOthers(m: Server, t: nat, p: Pc, which: nat, u: nat, q: Pc)
    requires MemOk(m) && PcOk(m, t, p) && PcOk(m, u, q) && t != u
    ensures var (m', n) := Do(m, t, p, which); n != Blocked ==> PcOk(m', u, q)
  {}

  lemma OwnersStay(m: Server, t: nat, p: Pc, which: nat)
    requires PcOk(m, t, p)
    ensures var (m', _) := Do(m, t, p, which);
            && (m'.mutex == Free || m'.mutex == m.mutex || m'.mutex == HeldBy(t))
            && (!m'.once.Running? || m'.once == m.once || m'.once == Running(t))
  {}

  lemma ActStep(s: Sys, t: nat, which: nat)
    requires Inv(s) && t in s.pc
    ensures Inv(Apply(s, Act(t, which)))
  {
    var p := s.pc[t];
    var (m, n) := Do(s.mem, t, p, which);
    DoOk(s.mem, t, p, which);
    OwnersStay(s.mem, t, p, which);
    if n != Blocked {
      forall u | u in s.pc && u != t ensures PcOk(m, u, s.pc[u]) {
        DoKeepsOthers(s.mem, t, p, which, u, s.pc[u]);
      }
      ResumeOk(s, t, m, n);
    }
  }

  lemma ResumeOk(s: Sys, t: nat, m: Server, n: Next)
    requires Inv(s) && t in s.pc && n != Blocked && MemOk(m)
    requires n.Goto? ==> PcOk(m, t, n.pc)
    requires n.Return? ==> m.mutex != HeldBy(t) && m.once != Running(t)
    requires m.mutex == Free || m.mutex == s.mem.mutex || m.mutex == HeldBy(t)
    requires !m.once.Running? || m.once == s.mem.once || m.once == Running(t)
    requires forall u :: u in s.pc && u != t ==> PcOk(m, u, s.pc[u])
    ensures Inv(Resume(s, t, m, n))
  {}

  lemma BeginStep(s: Sys, t: nat, call: Call)
    requires Inv(s)
    ensures Inv(Apply(s, Begin(t, call)))
  {}

  lemma {:induction false} EveryInterleaving(moves: seq<Move>)
    ensures Inv(Exec(moves))
  {
    if moves != [] {
      var n := |moves| - 1;
      var s := Exec(moves[..n]);
      EveryInterleaving(moves[..n]);
      match moves[n]
      case Begin(t, call) => BeginStep(s, t, call);
      case Act(t, which) =>
        if t in s.pc {
          ActStep(s, t, which);
        }
    }
  }

  /** In every interleaving the body runs at most once and `done` is closed at most once.  Before the stop nothing
      is refused.  Whenever the server is stopped and the mutex is free, every accepted server has been shut down
      and every refused one closed, so every server whose registration has returned; and once `done` is closed, or
      a call of `Shutdown` has returned, nothing is left running. */
  lemma NothingLeaks(moves: seq<Move>)
    ensures var m := Exec(moves).mem;
            && m.bodies <= 1 && m.doneCloses <= 1
            && m.refused <= m.closed && m.returned <= m.accepted + m.refused
            && (m.stopped && m.mutex == Free ==> m.accepted <= m.closed && m.returned <= m.closed)
            && (m.doneCloses == 1 ==> m.stopped && m.accepted <= m.closed)
            && (m.once == Finished ==> m.doneCloses == 1)
            && (m.shutdowns > 0 ==> m.stopped && m.doneCloses == 1 && m.accepted + m.refused <= m.closed)
            && (!m.stopped ==> m.refused == {} && m.returned <= m.accepted)
  {
    EveryInterleaving(moves);
    var s := Exec(moves);
    if s.mem.once.Running? {
      assert PcOk(s.mem, s.mem.once.runner, s.pc[s.mem.once.runner]);
    }
  }

  /** Nothing is accepted after the stop, whatever is called later: the list of servers is frozen while
      and after it is shut down. */
  lemma {:induction false} AcceptedIsFrozen(moves: seq<Move>, later: seq<Move>)
    requires Exec(moves).mem.stopped
    ensures var m := Exec(moves + later).mem; m.stopped && m.accepted == Exec(moves).mem.accepted
  {
    if later == [] {
      assert moves + later == moves;
    } else {
      var n := |later| - 1;
      AcceptedIsFrozen(moves, later[..n]);
      assert (moves + later)[..|moves + later| - 1] == moves + later[..n];
    }
  }

  /** No deadlock: as long as a call is under way, some goroutine can take a step. */
  lemma SomebodyMoves(moves: seq<Move>) returns (t: nat, which: nat)
    requires Exec(moves).pc != map[]
    ensures t in Exec(moves).pc && Apply(Exec(moves), Act(t, which)) != Exec(moves)
  {
    EveryInterleaving(moves);
    var s := Exec(moves);
    which := 0;
    if s.mem.mutex.HeldBy? {
      t := s.mem.mutex.owner;
      assert PcOk(s.mem, t, s.pc[t]);
      if s.pc[t].Closing? && s.pc[t].todo != {} {
        which :| which in s.pc[t].todo;
      }
    } else if s.mem.once.Running? {
      t := s.mem.once.runner;
      assert PcOk(s.mem, t, s.pc[t]);
    } else {
      t :| t in s.pc;
      assert PcOk(s.mem, t, s.pc[t]);
    }
    var (m, n) := Do(s.mem, t, s.pc[t], which);
    assert n != Blocked;
    assert n.Goto? ==> n.pc != s.pc[t];
  }
}
