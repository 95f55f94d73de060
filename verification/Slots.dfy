/** The counting limiters: `TryAcquire`/`Release` of a backend, the request limiter of a listener and
    the connection limiter of a listener.  All three load a counter, compare-and-swap it up, and add
    minus one later; any number of goroutines interleave these operations. */
module Slots {
  /** Which limiter.  Only `Release` of a backend loads the counter before it subtracts, and only an
      accepted connection can be closed again after its slot is gone. */
  datatype Kind = BackendSlots | RequestSlots | ConnectionSlots

  /** Where a goroutine (or, for connections, one accept and the connection it yields) is.
      Goroutines outside a limiter are absent. */
  datatype Pc =
    | Loaded(seen: int)   // it has loaded the counter, and found room
    | Holding             // it was let in; a connection is still being accepted
    | Connected           // its connection is open
    | Leaving             // it is about to subtract
    | Closing             // it is about to subtract, and its connection stays reachable
    | Closed              // its connection is closed and its slot returned

  datatype Sys = Sys(kind: Kind, limit: int, active: int, pc: map<nat, Pc>, extraCloses: nat)

  datatype Op =
    | Load(tid: nat)      // the first load, or a retry after a lost swap
    | Swap(tid: nat)
    | Accepted(tid: nat)
    | Leave(tid: nat)     // the check in `Release`, a finished request, a failed accept
    | Close(tid: nat)
    | Subtract(tid: nat)
    | CloseAgain(tid: nat)

  function Init(kind: Kind, limit: int): Sys {
    Sys(kind, limit, 0, map[], 0)
  }

  predicate Is(s: Sys, t: nat, p: Pc) {
    t in s.pc && s.pc[t] == p
  }

  function Goto(s: Sys, t: nat, p: Pc): Sys {
    s.(pc := s.pc[t := p])
  }

  function Drop(s: Sys, t: nat): Sys {
    s.(pc := s.pc - {t})
  }

  /** The load lets nobody past a full counter: the caller is refused, and keeps nothing. */
  predicate Refuses(s: Sys) {
    s.limit > 0 && s.active >= s.limit
  }

  /** `Release` of a backend subtracts only if it sees a positive counter; without a limit the other
      limiters are not in the way at all. */
  predicate SkipsSubtract(s: Sys) {
    if s.kind == BackendSlots then s.active <= 0 else s.limit <= 0
  }

  function Apply(s: Sys, op: Op): Sys {
    match op
    case Load(t) =>
      if t in s.pc || Refuses(s) then s
      else Goto(s, t, if s.limit <= 0 then Holding else Loaded(s.active))
    case Swap(t) =>
      if t !in s.pc || !s.pc[t].Loaded? then s
      else if s.active == s.pc[t].seen then Goto(s, t, Holding).(active := s.active + 1)
      else Drop(s, t)
    case Accepted(t) =>
      if s.kind == ConnectionSlots && Is(s, t, Holding) then Goto(s, t, Connected) else s
    case Leave(t) =>
      if !Is(s, t, Holding) then s
      else if SkipsSubtract(s) then Drop(s, t)
      else Goto(s, t, Leaving)
    case Close(t) =>
      if !Is(s, t, Connected) then s
      else if SkipsSubtract(s) then Drop(s, t)
      else Goto(s, t, Closing)
    case Subtract(t) =>
      if Is(s, t, Leaving) then Drop(s, t).(active := s.active - 1)
      else if Is(s, t, Closing) then Goto(s, t, Closed).(active := s.active - 1)
      else s
    case CloseAgain(t) =>
      if Is(s, t, Closed) then s.(active := s.active - 1, extraCloses := s.extraCloses + 1) else s
  }

  function Run(s: Sys, ops: seq<Op>): Sys {
    if ops == [] then s else Apply(Run(s, ops[..|ops| - 1]), ops[|ops| - 1])
  }

  predicate Holds(p: Pc) {
    p.Holding? || p.Connected? || p.Leaving? || p.Closing?
  }

  /** Who has been let in and has not yet given the slot back. */
  ghost function Holders(s: Sys): set<nat> {
    set t | t in s.pc && Holds(s.pc[t])
  }

  /** Every unit of the counter is somebody's slot, less the closes that came too often. */
  ghost predicate Balanced(s: Sys) {
    && s.active == |Holders(s)| - s.extraCloses
    && s.active <= s.limit
    && (forall t :: t in s.pc && s.pc[t].Loaded? ==> s.pc[t].seen < s.limit)
    && (s.kind != ConnectionSlots ==>
          s.extraCloses == 0 && forall t :: t in s.pc ==> !(s.pc[t].Connected? || s.pc[t].Closing? || s.pc[t].Closed?))
  }

  function One(holds: bool): nat {
    if holds then 1 else 0
  }

  predicate HoldsAt(s: Sys, t: nat) {
    t in s.pc && Holds(s.pc[t])
  }

  /** Dropping a goroutine drops its slot, if it has one. */
  lemma HoldersDrop(s: Sys, t: nat)
    ensures |Holders(Drop(s, t))| == |Holders(s)| - One(HoldsAt(s, t))
  {
    assert Holders(Drop(s, t)) == Holders(s) - {t};
  }

  lemma HoldersGoto(s: Sys, t: nat, p: Pc)
    ensures |Holders(Goto(s, t, p))| == |Holders(s)| - One(HoldsAt(s, t)) + One(Holds(p))
  {
    HoldersDrop(s, t);
    assert Holders(Goto(s, t, p)) == if Holds(p) then Holders(Drop(s, t)) + {t} else Holders(Drop(s, t));
  }

  lemma HolderCounts(s: Sys, t: nat)
    requires HoldsAt(s, t)
    ensures |Holders(s)| >= 1
  {
    HoldersDrop(s, t);
  }

  lemma SameHolders(s: Sys, s': Sys)
    requires s'.pc == s.pc
    ensures Holders(s') == Holders(s)
  {}

  /** Whatever one operation does to the holders, it does to the counter. */
  lemma HoldersStep(s: Sys, op: Op)
    requires Balanced(s) && s.limit > 0
    ensures var s' := Apply(s, op); s'.active == |Holders(s')| - s'.extraCloses
  {
    var s', t := Apply(s, op), op.tid;
    if HoldsAt(s, t) {
      HolderCounts(s, t);
    }
    if s'.pc == s.pc {
      SameHolders(s, s');
    } else if t in s'.pc {
      HoldersGoto(s, t, s'.pc[t]);
      SameHolders(Goto(s, t, s'.pc[t]), s');
    } else {
      HoldersDrop(s, t);
      SameHolders(Drop(s, t), s');
    }
  }

  lemma BalancedStep(s: Sys, op: Op)
    requires Balanced(s) && s.limit > 0
    ensures var s' := Apply(s, op); Balanced(s') && s'.limit == s.limit && s'.kind == s.kind
  {
    HoldersStep(s, op);
  }

  lemma {:induction false} AlwaysBalanced(kind: Kind, limit: int, ops: seq<Op>)
    requires limit > 0
    ensures var s := Run(Init(kind, limit), ops); Balanced(s) && s.limit == limit && s.kind == kind
  {
    if ops == [] {
    } else {
      var n := |ops| - 1;
      AlwaysBalanced(kind, limit, ops[..n]);
      BalancedStep(Run(Init(kind, limit), ops[..n]), ops[n]);
    }
  }

  /** For a backend and for requests, under every interleaving: the counter is the number of holders,
      between zero and the limit; a caller is refused exactly when `limit` others hold a slot; and a
      holder that comes to `Release` always passes its check and gives its slot back. */
  lemma SlotsAreExact(kind: Kind, limit: int, ops: seq<Op>, t: nat)
    requires limit > 0 && kind != ConnectionSlots
    ensures var s := Run(Init(kind, limit), ops);
            && s.active == |Holders(s)| && 0 <= s.active <= limit
            && (Refuses(s) <==> |Holders(s)| == limit)
            && (Is(s, t, Holding) ==>
                  Apply(Apply(s, Leave(t)), Subtract(t)) == Drop(s, t).(active := s.active - 1))
  {
    AlwaysBalanced(kind, limit, ops);
    var s := Run(Init(kind, limit), ops);
    if Is(s, t, Holding) {
      HolderCounts(s, t);
      assert s.pc[t := Leaving] - {t} == s.pc - {t};
    }
  }

  /** Under a limit, a caller whom nobody interrupts gets a slot exactly when there is one; and a swap is lost only
      when the counter has moved since it was loaded. */
  lemma RoomIsGiven(kind: Kind, limit: int, ops: seq<Op>, t: nat)
    requires limit > 0 && t !in Run(Init(kind, limit), ops).pc
    ensures var s := Run(Init(kind, limit), ops);
            var s' := Apply(Apply(s, Load(t)), Swap(t));
            if s.active < limit then Is(s', t, Holding) && s'.active == s.active + 1 else s' == s
    ensures var s := Run(Init(kind, limit), ops);
            forall u :: u in s.pc && s.pc[u].Loaded? && s.pc[u].seen == s.active ==>
              Is(Apply(s, Swap(u)), u, Holding) && Apply(s, Swap(u)).active == s.active + 1
  {
    AlwaysBalanced(kind, limit, ops);
  }

  /** Connections: the counter is short by exactly the closes that were repeated, so it equals the
      accepts in progress plus the open connections if and only if no connection was closed twice. */
  lemma ConnectionsAreExact(limit: int, ops: seq<Op>)
    requires limit > 0
    ensures var s := Run(Init(ConnectionSlots, limit), ops);
            && s.active == |Holders(s)| - s.extraCloses
            && |Holders(s)| <= limit + s.extraCloses
            && (s.active == |Holders(s)| <==> s.extraCloses == 0)
            && (s.extraCloses == 0 ==> 0 <= s.active <= limit && (Refuses(s) <==> |Holders(s)| == limit))
  {
    AlwaysBalanced(ConnectionSlots, limit, ops);
  }

  /** A connection closed twice lets one connection too many in: two open ones under a limit of one. */
  lemma ClosingTwiceOverAdmits() returns (ops: seq<Op>)
    ensures var s := Run(Init(ConnectionSlots, 1), ops);
            Holders(s) == {2, 3} && s.limit == 1
  {
    ops := [];
    var s := Init(ConnectionSlots, 1);
    ops, s := Admit(ops, s, 1);
    ops, s := Then(ops, s, Accepted(1));
    ops, s := Then(ops, s, Close(1));
    ops, s := Then(ops, s, Subtract(1));
    ops, s := Admit(ops, s, 2);
    ops, s := Then(ops, s, CloseAgain(1));
    ops, s := Admit(ops, s, 3);
  }

  lemma Then(ops: seq<Op>, s: Sys, op: Op) returns (ops': seq<Op>, s': Sys)
    requires Run(Init(ConnectionSlots, 1), ops) == s
    ensures Run(Init(ConnectionSlots, 1), ops') == s' == Apply(s, op)
  {
    ops', s' := ops + [op], Apply(s, op);
    assert ops'[..|ops|] == ops;
  }

  lemma Admit(ops: seq<Op>, s: Sys, t: nat) returns (ops': seq<Op>, s': Sys)
    requires Run(Init(ConnectionSlots, 1), ops) == s && t !in s.pc && s.active == 0 && s.limit == 1
    ensures Run(Init(ConnectionSlots, 1), ops') == s' == Goto(s, t, Holding).(active := 1)
  {
    ops', s' := Then(ops, s, Load(t));
    ops', s' := Then(ops', s', Swap(t));
    assert s.pc[t := Loaded(0)][t := Holding] == s.pc[t := Holding];
  }

  /** Without a positive limit nobody is refused and the counter never moves. */
  lemma {:induction false} UnlimitedNeverCounts(kind: Kind, limit: int, ops: seq<Op>)
    requires limit <= 0
    ensures var s := Run(Init(kind, limit), ops);
            && s.active == 0 && s.limit == limit && s.kind == kind && !Refuses(s)
            && forall t :: t in s.pc ==> s.pc[t].Holding? || s.pc[t].Connected?
  {
    if ops != [] {
      UnlimitedNeverCounts(kind, limit, ops[..|ops| - 1]);
    }
  }
}
