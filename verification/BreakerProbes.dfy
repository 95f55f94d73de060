/** Two questions about the interleaved breaker: when a circuit at rest can be closed again, and when its
    probes are thirty seconds apart. */
module BreakerProbes {
  import opened Breaker
  import opened BreakerThreads

  // ----- runs and conditions on their steps

  /** Every move of the run meets `p` in the state in which it is made. */
  ghost predicate Along(s: Sys, moves: seq<Move>, p: (Sys, Move) -> bool) {
    moves == [] ||
    var n := |moves| - 1;
    Along(s, moves[..n], p) && p(Exec(s, moves[..n]), moves[n])
  }

  /** The clock does not go back. */
  predicate OnTime(s: Sys, move: Move) {
    move.Op? ==> s.clock <= move.now
  }

  /** A goroutine has stored a deadline and is about to open the circuit. */
  ghost predicate Opening(s: Sys) {
    exists u :: u in s.pc && s.pc[u].TripSwap?
  }

  /** A goroutine has seen the circuit open and has yet to look at the deadline. */
  ghost predicate Waiting(s: Sys) {
    exists u :: u in s.pc && (s.pc[u].AskClock? || s.pc[u].AskDue?)
  }

  /** Less than thirty seconds after the last probe, the response hook wipes the deadline of a circuit that was
      opened, or is being opened, since the hook closed it. */
  ghost predicate ClearsLate(s: Sys, move: Move) {
    && move.Op? && move.tid in s.pc && s.pc[move.tid].OkClear? && (s.mem.state == Open || Opening(s))
    && s.mem.grants != [] && move.now < s.mem.grants[|s.mem.grants| - 1] + COOL_DOWN
  }

  /** The clock does not go back and no deadline is wiped late. */
  ghost predicate Orderly(s: Sys, move: Move) {
    OnTime(s, move) && !ClearsLate(s, move)
  }

  /** The move hands out a probe. */
  predicate Grants(s: Sys, move: Move) {
    move.Op? && move.tid in s.pc && s.pc[move.tid].AskSwap? && s.mem.state == Open
  }

  /** No goroutine can undercut a probe granted at `g`.  Until thirty seconds later, none carries a clock reading
      from before it towards the deadline; an open or opening circuit has a deadline thirty seconds after it;
      only in such a circuit is anybody on the way to the deadline; and nobody is past the deadline. */
  ghost predicate Secure(s: Sys, g: int) {
    && g <= s.clock
    && (s.clock < g + COOL_DOWN ==>
          && (forall u :: u in s.pc && s.pc[u].TripDeadline? ==> g <= s.pc[u].read)
          && (s.mem.state == Open || Opening(s) ==> g + COOL_DOWN <= s.mem.retryAfter)
          && (Waiting(s) ==> s.mem.state == Open || Opening(s))
          && (forall u :: u in s.pc ==> !s.pc[u].AskSwap?))
  }

  ghost predicate LastGrant(s: Sys, g: int) {
    s.mem.grants != [] && s.mem.grants[|s.mem.grants| - 1] == g
  }

  /** A probe is granted only where nobody can undercut it. */
  ghost predicate GrantsSecurely(s: Sys, move: Move) {
    Grants(s, move) ==> Secure(Apply(s, move), move.now)
  }

  ghost predicate Guarded(s: Sys, move: Move) {
    Orderly(s, move) && GrantsSecurely(s, move)
  }

  /** The run with one move more. */
  lemma Then(s: Sys, moves: seq<Move>, m: Move) returns (r: seq<Move>)
    ensures moves <= r && Exec(s, r) == Apply(Exec(s, moves), m)
    ensures Along(s, moves, OnTime) && OnTime(Exec(s, moves), m) ==> Along(s, r, OnTime)
    ensures Along(s, moves, Orderly) && Orderly(Exec(s, moves), m) ==> Along(s, r, Orderly)
    ensures Along(s, moves, GrantsSecurely) && GrantsSecurely(Exec(s, moves), m) ==> Along(s, r, GrantsSecurely)
  {
    r := moves + [m];
    assert r[..|moves|] == moves;
  }

  // ----- an uninterrupted call is a run

  /** What other goroutines have left behind cannot make the call from `p` on wipe a deadline late. */
  ghost predicate Undisturbed(s: Sys, p: Pc) {
    && (p.OkReset? || p.OkSwap? ==> !Opening(s))
    && (p.OkRestore? || p.OkClear? ==> !Opening(s) && s.mem.state != Open)
  }

  /** All other goroutines are done but for the store that ends the response hook. */
  predicate OthersOnlyClear(s: Sys, t: nat) {
    forall u :: u in s.pc && u != t ==> s.pc[u].OkClear?
  }

  lemma OpeningAfter(s: Sys, t: nat, now: int)
    requires t in s.pc && !Opening(s)
    ensures Opening(Apply(s, Op(t, now))) ==> s.pc[t].TripDeadline?
  {
    var s' := Apply(s, Op(t, now));
    if Opening(s') {
      var u :| u in s'.pc && s'.pc[u].TripSwap?;
      assert u == t;
    }
  }

  lemma UndisturbedStep(s: Sys, t: nat, now: int)
    requires t in s.pc && Undisturbed(s, s.pc[t])
    ensures !ClearsLate(s, Op(t, now))
    ensures var s' := Apply(s, Op(t, now)); t in s'.pc ==> Undisturbed(s', s'.pc[t])
  {
    if !Opening(s) {
      OpeningAfter(s, t, now);
    }
  }

  lemma OthersStep(s: Sys, t: nat, now: int)
    requires t in s.pc && OthersOnlyClear(s, t)
    ensures OthersOnlyClear(Apply(s, Op(t, now)), t) && GrantsSecurely(s, Op(t, now))
  {
  }

  lemma {:induction false} UnbrokenIsRun(s: Sys, moves: seq<Move>, t: nat, now: int) returns (longer: seq<Move>)
    requires var r := Exec(s, moves); t in r.pc && r.clock <= now && Undisturbed(r, r.pc[t])
    ensures var r := Exec(s, moves);
            var (m, n) := Unbroken(r.mem, r.pc[t], now);
            && Exec(s, longer) == Resume(r.(clock := now), t, m, n)
            && (Along(s, moves, OnTime) ==> Along(s, longer, OnTime))
            && (Along(s, moves, Orderly) ==> Along(s, longer, Orderly))
            && (Along(s, moves, GrantsSecurely) && OthersOnlyClear(r, t) ==> Along(s, longer, GrantsSecurely))
    decreases Rank(Exec(s, moves).pc[t])
  {
    var r := Exec(s, moves);
    longer := Then(s, moves, Op(t, now));
    UndisturbedStep(r, t, now);
    if OthersOnlyClear(r, t) {
      OthersStep(r, t, now);
    }
    var (m, n) := Do(r.mem, r.pc[t], now);
    if n.Goto? {
      var r' := Exec(s, longer);
      longer := UnbrokenIsRun(s, longer, t, now);
      var (m', n') := Unbroken(m, n.pc, now);
      assert Resume(r', t, m', n') == Resume(r.(clock := now), t, m', n') by {
        assert r'.pc - {t} == r.pc - {t};
      }
    }
  }

  /** An uninterrupted call is one of the scheduler's runs. */
  lemma SoloIsRun(s: Sys, moves: seq<Move>, t: nat, call: Call, now: int) returns (longer: seq<Move>)
    requires var r := Exec(s, moves);
             && Startable(r, t, call) && r.clock <= now
             && (call.Succeeding? || call.Upgrading? ==> !Opening(r))
    ensures var r := Exec(s, moves);
            && Exec(s, longer) == Solo(r, t, call, now)
            && (Along(s, moves, OnTime) ==> Along(s, longer, OnTime))
            && (Along(s, moves, Orderly) ==> Along(s, longer, Orderly))
            && (Along(s, moves, GrantsSecurely) && OthersOnlyClear(r, t) ==> Along(s, longer, GrantsSecurely))
  {
    var r := Exec(s, moves);
    longer := Then(s, moves, Start(t, call));
    var r' := Exec(s, longer);
    assert Opening(r') ==> Opening(r);
    longer := UnbrokenIsRun(s, longer, t, now);
  }

  // ----- when a circuit at rest can be closed again

  /** A goroutine that has nothing to do with the backend. */
  lemma Outsider(s: Sys) returns (t: nat)
    ensures Startable(s, t, Asking)
  {
    t := Above(s.pc.Keys + s.admitted + s.upgraded);
  }

  lemma {:induction false} Above(ids: set<nat>) returns (t: nat)
    ensures forall i :: i in ids ==> i < t
  {
    t := 0;
    if ids != {} {
      var i :| i in ids;
      var a := Above(ids - {i});
      t := if a <= i then i + 1 else a;
      assert forall j :: j in ids ==> j == i || j in ids - {i};
    }
  }

  /** At rest, closed, healthy and without failures. */
  ghost predicate Recovered(s: Sys) {
    s.pc == map[] && s.mem.state == Closed && s.mem.healthy && s.mem.failures == 0
  }

  lemma SucceedAtRest(s: Sys, moves: seq<Move>, t: nat, now: int) returns (longer: seq<Move>)
    requires var r := Exec(s, moves);
             && Along(s, moves, Orderly) && r.pc == map[] && t in r.admitted && r.clock <= now
             && (r.mem.state == HalfOpen || (r.mem.state == Closed && r.mem.healthy))
    ensures Along(s, longer, Orderly) && Recovered(Exec(s, longer))
  {
    var r := Exec(s, moves);
    SoloIsAtomic(r, t, Succeeding, now);
    longer := SoloIsRun(s, moves, t, Succeeding, now);
  }

  /** A circuit at rest that is not half-open lets a caller in once its deadline is past. */
  lemma AskAtRest(s: Sys, moves: seq<Move>) returns (longer: seq<Move>)
    requires var r := Exec(s, moves);
             && Along(s, moves, Orderly) && r.pc == map[] && r.mem.state != HalfOpen
             && (r.mem.state == Closed ==> r.mem.healthy)
    ensures Along(s, longer, Orderly) && Recovered(Exec(s, longer))
  {
    var r := Exec(s, moves);
    var now := if r.mem.retryAfter <= r.clock then r.clock else r.mem.retryAfter;
    var t := Outsider(r);
    SoloIsAtomic(r, t, Asking, now);
    longer := SoloIsRun(s, moves, t, Asking, now);
    longer := SucceedAtRest(s, longer, t, now);
  }

  /** A half-open circuit where nobody has a request in hand, nor is on the way to one, stays as it is under
      every continuation whatever, and lets nobody in. */
  lemma {:induction false} StrandedForGood(s: Sys, more: seq<Move>)
    requires s.mem.state == HalfOpen && s.admitted == {} && s.upgraded == {}
    requires forall u :: u in s.pc ==> s.pc[u].AskState?
    ensures var s' := Exec(s, more);
            && s'.mem == s.mem && s'.admitted == {} && s'.upgraded == {}
            && forall u :: u in s'.pc ==> s'.pc[u].AskState?
  {
    if more != [] {
      StrandedForGood(s, more[..|more| - 1]);
    }
  }

  /** Some orderly continuation closes the circuit. */
  ghost predicate CanRecover(s: Sys) {
    exists more :: Along(s, more, Orderly) && Recovered(Exec(s, more))
  }

  lemma CanRecoverAfter(s: Sys, more: seq<Move>)
    requires Along(s, more, Orderly) && Recovered(Exec(s, more))
    ensures CanRecover(s)
  {}

  lemma RecoversByHand(s: Sys, t: nat)
    requires s.pc == map[] && s.mem.state == HalfOpen && (t in s.admitted || t in s.upgraded)
    ensures CanRecover(s)
  {
    var more: seq<Move> := [];
    if t in s.admitted {
      more := SucceedAtRest(s, [], t, s.clock);
    } else {
      SoloIsAtomic(s, t, Failing, s.clock);
      more := SoloIsRun(s, [], t, Failing, s.clock);
      more := AskAtRest(s, more);
    }
    CanRecoverAfter(s, more);
  }

  /** A reachable circuit at rest can be closed again if and only if it is not half-open, or somebody still
      has a request on it in hand. */
  lemma RestingStateRecoversIff(moves: seq<Move>)
    requires Exec(INIT, moves).pc == map[]
    ensures var s := Exec(INIT, moves);
            CanRecover(s) <==> s.mem.state != HalfOpen || s.admitted + s.upgraded != {}
  {
    var s := Exec(INIT, moves);
    QuiescentIsSound(moves);
    if s.mem.state != HalfOpen {
      var more := AskAtRest(s, []);
      CanRecoverAfter(s, more);
    } else if s.admitted + s.upgraded != {} {
      var t :| t in s.admitted + s.upgraded;
      RecoversByHand(s, t);
    } else {
      forall more ensures !Recovered(Exec(s, more)) {
        StrandedForGood(s, more);
      }
    }
  }

  // ----- a secure probe is not undercut

  /** Clock readings in flight are in the past. */
  ghost predicate Timely(s: Sys) {
    0 <= s.clock && forall u :: u in s.pc && (s.pc[u].AskDue? || s.pc[u].TripDeadline?) ==> 0 <= s.pc[u].read <= s.clock
  }

  lemma TimelyStep(s: Sys, move: Move)
    requires Timely(s) && OnTime(s, move)
    ensures Timely(Apply(s, move))
  {}

  lemma GrantsStep(s: Sys, move: Move)
    ensures Apply(s, move).mem.grants == if Grants(s, move) then s.mem.grants + [move.now] else s.mem.grants
  {}

  lemma {:induction false} AlwaysTimely(moves: seq<Move>)
    requires Along(INIT, moves, OnTime)
    ensures Timely(Exec(INIT, moves))
  {
    if moves != [] {
      var n := |moves| - 1;
      AlwaysTimely(moves[..n]);
      TimelyStep(Exec(INIT, moves[..n]), moves[n]);
    }
  }

  /** Whether the circuit is open or about to be; once it is, it stays so until the next probe. */
  ghost predicate OpenSoon(s: Sys) {
    s.mem.state == Open || Opening(s)
  }

  lemma OpenSoonStep(s: Sys, move: Move)
    requires !Grants(s, move)
    ensures var s' := Apply(s, move);
            && (OpenSoon(s) ==> OpenSoon(s'))
            && (OpenSoon(s') && !OpenSoon(s) ==>
                  move.Op? && move.tid in s.pc && s.pc[move.tid].TripDeadline?)
  {
    var s' := Apply(s, move);
    if Opening(s) {
      var u :| u in s.pc && s.pc[u].TripSwap?;
      assert s'.mem.state == Open || (u in s'.pc && s'.pc[u].TripSwap?);
    } else if Opening(s') {
      var u :| u in s'.pc && s'.pc[u].TripSwap?;
      assert u == move.tid;
    }
  }

  lemma WaitingStep(s: Sys, move: Move)
    requires Waiting(Apply(s, move))
    ensures Waiting(s) || s.mem.state == Open
  {
    var s' := Apply(s, move);
    var u :| u in s'.pc && (s'.pc[u].AskClock? || s'.pc[u].AskDue?);
    if u in s.pc && (s.pc[u].AskClock? || s.pc[u].AskDue?) {
    } else {
      assert u == move.tid;
    }
  }

  /** One orderly move: the next probe is thirty seconds later, and until it comes the first one stays
      secure. */
  lemma SecureStep(s: Sys, move: Move, g: int)
    requires Secure(s, g) && LastGrant(s, g) && Timely(s) && Orderly(s, move)
    ensures if Grants(s, move) then g + COOL_DOWN <= move.now else Secure(Apply(s, move), g)
  {
    var s' := Apply(s, move);
    if !Grants(s, move) {
      OpenSoonStep(s, move);
      if Waiting(s') {
        WaitingStep(s, move);
      }
      if move.Op? && move.tid in s.pc && s.pc[move.tid].AskDue? {
        assert Waiting(s);
      }
      assert s'.clock < g + COOL_DOWN && OpenSoon(s') ==> g + COOL_DOWN <= s'.mem.retryAfter;
    }
  }

  /** From a secure probe, over any orderly run. */
  lemma {:induction false} NextIsLater(s: Sys, more: seq<Move>, g: int)
    requires Secure(s, g) && LastGrant(s, g) && Timely(s) && Along(s, more, Orderly)
    ensures var s' := Exec(s, more);
            && s.mem.grants <= s'.mem.grants && Timely(s')
            && if s'.mem.grants == s.mem.grants then Secure(s', g) else g + COOL_DOWN <= s'.mem.grants[|s.mem.grants|]
  {
    if more != [] {
      var n := |more| - 1;
      var r := Exec(s, more[..n]);
      NextIsLater(s, more[..n], g);
      TimelyStep(r, more[n]);
      GrantsStep(r, more[n]);
      if r.mem.grants == s.mem.grants {
        SecureStep(r, more[n], g);
      }
    }
  }

  ghost predicate Spaced(grants: seq<int>) {
    forall i, j :: 0 <= i < j < |grants| ==> grants[i] + COOL_DOWN <= grants[j]
  }

  lemma {:induction false} AlwaysSecure(moves: seq<Move>)
    requires Along(INIT, moves, Guarded)
    ensures var s := Exec(INIT, moves);
            var k := |s.mem.grants|;
            Timely(s) && Spaced(s.mem.grants) && (k > 0 ==> Secure(s, s.mem.grants[k - 1]))
  {
    if moves != [] {
      var n := |moves| - 1;
      var s := Exec(INIT, moves[..n]);
      AlwaysSecure(moves[..n]);
      TimelyStep(s, moves[n]);
      GrantsStep(s, moves[n]);
      var k := |s.mem.grants|;
      if k > 0 {
        SecureStep(s, moves[n], s.mem.grants[k - 1]);
      }
    }
  }

  /** Under every interleaving in which the clock does not go back, no deadline is wiped late and probes are
      granted where nobody can undercut them, any two probes are at least thirty seconds apart. */
  lemma GuardedProbesAreSpaced(moves: seq<Move>)
    requires Along(INIT, moves, Guarded)
    ensures Spaced(Exec(INIT, moves).mem.grants)
  {
    AlwaysSecure(moves);
  }

  /** A call starts only when no other is under way. */
  predicate OneByOne(s: Sys, move: Move) {
    OnTime(s, move) && (move.Start? ==> s.pc == map[])
  }

  /** At most one call is under way, and its hook finds the circuit as it left it. */
  ghost predicate Alone(s: Sys) {
    && (forall u, v :: u in s.pc && v in s.pc ==> u == v)
    && (forall u :: u in s.pc && (s.pc[u].OkRestore? || s.pc[u].OkClear?) ==> s.mem.state == Closed)
  }

  lemma AloneStep(s: Sys, move: Move)
    requires Alone(s) && OneByOne(s, move)
    ensures Alone(Apply(s, move))
  {}

  lemma AloneIsGuarded(s: Sys, move: Move)
    requires Alone(s) && OneByOne(s, move)
    ensures Guarded(s, move)
  {
    if Grants(s, move) {
      assert OthersOnlyClear(s, move.tid);
      OthersStep(s, move.tid, move.now);
    }
  }

  lemma {:induction false} OneByOneIsGuarded(moves: seq<Move>)
    requires Along(INIT, moves, OneByOne)
    ensures Along(INIT, moves, Guarded) && Alone(Exec(INIT, moves))
  {
    if moves != [] {
      var n := |moves| - 1;
      OneByOneIsGuarded(moves[..n]);
      AloneStep(Exec(INIT, moves[..n]), moves[n]);
      AloneIsGuarded(Exec(INIT, moves[..n]), moves[n]);
    }
  }

  /** Calls that do not overlap space their probes, however long each of them takes. */
  lemma SerialProbesAreSpaced(moves: seq<Move>)
    requires Along(INIT, moves, OneByOne)
    ensures Spaced(Exec(INIT, moves).mem.grants)
  {
    OneByOneIsGuarded(moves);
    GuardedProbesAreSpaced(moves);
  }

  // ----- and any other is

  /** The continuation grants its first probe before `g + COOL_DOWN`. */
  ghost predicate Undercuts(s: Sys, more: seq<Move>, g: int) {
    var before, after := s.mem.grants, Exec(s, more).mem.grants;
    Along(s, more, Orderly) && |before| < |after| && after[|before|] < g + COOL_DOWN
  }

  /** Goroutine `t`, just granted the probe, fails at once; goroutine `u` is past the deadline already. */
  lemma StaleSwap(s: Sys, t: nat, u: nat)
    requires s.mem.state == HalfOpen && t in s.pc && s.pc[t].AskRestore? && u in s.pc && s.pc[u].AskSwap?
    ensures exists more :: Undercuts(s, more, s.clock)
  {
    var g := s.clock;
    var more := Then(s, [], Op(t, g));
    var r := Exec(s, more);
    SoloIsAtomic(r, t, Failing, g);
    more := SoloIsRun(s, more, t, Failing, g);
    more := Then(s, more, Op(u, g));
    assert Undercuts(s, more, g);
  }

  /** A new caller asks an open circuit as soon as its deadline is past. */
  lemma AskOpen(s: Sys, moves: seq<Move>) returns (longer: seq<Move>)
    requires Exec(s, moves).mem.state == Open
    ensures var r, r' := Exec(s, moves), Exec(s, longer);
            var at := if r.mem.retryAfter <= r.clock then r.clock else r.mem.retryAfter;
            && r'.mem.grants == r.mem.grants + [at] && r'.pc == r.pc && r'.clock == at
            && (Along(s, moves, OnTime) ==> Along(s, longer, OnTime))
            && (Along(s, moves, Orderly) ==> Along(s, longer, Orderly))
            && (Along(s, moves, GrantsSecurely) && r.pc == map[] ==> Along(s, longer, GrantsSecurely))
  {
    var r := Exec(s, moves);
    var at := if r.mem.retryAfter <= r.clock then r.clock else r.mem.retryAfter;
    var v := Outsider(r);
    SoloIsAtomic(r, v, Asking, at);
    longer := SoloIsRun(s, moves, v, Asking, at);
  }

  lemma SwapOpens(s: Sys, moves: seq<Move>, u: nat) returns (longer: seq<Move>)
    requires var r := Exec(s, moves); Along(s, moves, Orderly) && u in r.pc && r.pc[u].TripSwap?
    ensures var r, r' := Exec(s, moves), Exec(s, longer);
            && Along(s, longer, Orderly) && r'.clock == r.clock
            && r'.mem.state == Open && r'.mem.retryAfter == r.mem.retryAfter && r'.mem.grants == r.mem.grants
  {
    longer := Then(s, moves, Op(u, Exec(s, moves).clock));
  }

  lemma AskUndercuts(s: Sys, moves: seq<Move>, g: int)
    requires var r := Exec(s, moves);
             && Along(s, moves, Orderly) && r.mem.grants == s.mem.grants && r.clock == g
             && r.mem.state == Open && r.mem.retryAfter < g + COOL_DOWN
    ensures exists more :: Undercuts(s, more, g)
  {
    var more := AskOpen(s, moves);
    assert Undercuts(s, more, g);
  }

  /** Goroutine `u` opens the circuit with a deadline from before the probe. */
  lemma StaleOpening(s: Sys, moves: seq<Move>, u: nat, g: int)
    requires var r := Exec(s, moves);
             && Along(s, moves, Orderly) && r.mem.grants == s.mem.grants && r.clock == g
             && u in r.pc && r.pc[u].TripSwap? && r.mem.retryAfter < g + COOL_DOWN
    ensures exists more :: Undercuts(s, more, g)
  {
    var more := SwapOpens(s, moves, u);
    AskUndercuts(s, more, g);
  }

  lemma StaleDeadline(s: Sys, u: nat)
    requires u in s.pc && s.pc[u].TripDeadline? && s.pc[u].read < s.clock
    ensures exists more :: Undercuts(s, more, s.clock)
  {
    var more := Then(s, [], Op(u, s.clock));
    StaleOpening(s, more, u, s.clock);
  }

  /** New callers are let into a closed circuit one after the other, and the request of each fails. */
  lemma {:induction false} Failures(s: Sys, moves: seq<Move>, k: nat, now: int) returns (longer: seq<Move>)
    requires var r := Exec(s, moves);
             && r.mem.state == Closed && r.mem.healthy && r.mem.failures == 0 && r.clock <= now && k <= TRIP_AT
    ensures var r, r' := Exec(s, moves), Exec(s, longer);
            && r'.pc == r.pc && r'.mem.grants == r.mem.grants && (r' == r || r'.clock == now)
            && r'.admitted == r.admitted && r'.upgraded == r.upgraded
            && View(r'.mem) == (if k < TRIP_AT then View(r.mem).(failures := k) else Tripped(View(r.mem), now))
            && (Along(s, moves, OnTime) ==> Along(s, longer, OnTime))
            && (Along(s, moves, Orderly) ==> Along(s, longer, Orderly))
            && (Along(s, moves, GrantsSecurely) && (forall u :: u in r.pc ==> r.pc[u].OkClear?) ==> Along(s, longer, GrantsSecurely))
  {
    longer := moves;
    if k > 0 {
      longer := Failures(s, moves, k - 1, now);
      var r := Exec(s, longer);
      var v := Outsider(r);
      SoloIsAtomic(r, v, Asking, now);
      longer := SoloIsRun(s, longer, v, Asking, now);
      var r' := Exec(s, longer);
      SoloIsAtomic(r', v, Failing, now);
      longer := SoloIsRun(s, longer, v, Failing, now);
    }
  }

  lemma NotOpening(s: Sys, s': Sys)
    requires !Opening(s) && forall u :: u in s'.pc ==> u in s.pc && s'.pc[u] == s.pc[u]
    ensures !Opening(s')
  {}

  /** The probe of goroutine `t` succeeds at once. */
  lemma ProbeSucceeds(s: Sys, t: nat) returns (more: seq<Move>)
    requires s.mem.state == HalfOpen && t in s.pc && s.pc[t].AskRestore? && !Opening(s)
    ensures var r := Exec(s, more);
            && Along(s, more, Orderly) && r.clock == s.clock && r.mem.grants == s.mem.grants && r.pc == s.pc - {t}
            && r.mem.state == Closed && r.mem.healthy && r.mem.failures == 0 && r.mem.retryAfter == 0
  {
    more := Then(s, [], Op(t, s.clock));
    var r := Exec(s, more);
    NotOpening(s, r);
    SoloIsAtomic(r, t, Succeeding, s.clock);
    more := SoloIsRun(s, more, t, Succeeding, s.clock);
  }

  /** Goroutine `u` passes a deadline that has been wiped. */
  lemma PassDeadline(s: Sys, moves: seq<Move>, u: nat) returns (longer: seq<Move>)
    requires var r := Exec(s, moves);
             && Along(s, moves, Orderly) && r.mem.retryAfter == 0 <= r.clock && u in r.pc
             && (r.pc[u].AskClock? || (r.pc[u].AskDue? && 0 <= r.pc[u].read))
    ensures var r := Exec(s, moves);
            Along(s, longer, Orderly) && Exec(s, longer) == r.(pc := r.pc[u := AskSwap])
  {
    var r := Exec(s, moves);
    longer := moves;
    if r.pc[u].AskClock? {
      longer := Then(s, longer, Op(u, r.clock));
    }
    longer := Then(s, longer, Op(u, r.clock));
    assert r.pc[u := AskDue(r.clock)][u := AskSwap] == r.pc[u := AskSwap];
  }

  /** Goroutine `u` has seen the circuit open.  The probe succeeds and wipes the deadline, `u` passes it, and
      five failures open the circuit again. */
  lemma StaleWait(s: Sys, t: nat, u: nat)
    requires s.mem.state == HalfOpen && t in s.pc && s.pc[t].AskRestore? && !Opening(s) && Timely(s)
    requires u in s.pc && (s.pc[u].AskClock? || s.pc[u].AskDue?)
    ensures exists more :: Undercuts(s, more, s.clock)
  {
    var more := ProbeSucceeds(s, t);
    more := PassDeadline(s, more, u);
    more := Failures(s, more, 5, s.clock);
    var r := Exec(s, more);
    assert u in r.pc && r.pc[u].AskSwap? && r.mem.state == Open;
    more := Then(s, more, Op(u, s.clock));
    assert Undercuts(s, more, s.clock);
  }

  /** Exactly when a probe is spaced: at every reachable grant of a probe, all orderly continuations keep the
      next probe thirty seconds away if and only if the grant is secure. */
  lemma NextProbeIsSpacedIff(moves: seq<Move>, t: nat, now: int)
    requires var s := Exec(INIT, moves);
             Along(INIT, moves, OnTime) && OnTime(s, Op(t, now)) && Grants(s, Op(t, now))
    ensures var s := Apply(Exec(INIT, moves), Op(t, now));
            (forall more :: !Undercuts(s, more, now)) <==> Secure(s, now)
  {
    var s := Apply(Exec(INIT, moves), Op(t, now));
    AlwaysTimely(moves);
    if Secure(s, now) {
      forall more | Along(s, more, Orderly) ensures !Undercuts(s, more, now) {
        NextIsLater(s, more, now);
      }
    } else if u :| u in s.pc && s.pc[u].TripDeadline? && s.pc[u].read < now {
      StaleDeadline(s, u);
    } else if u :| u in s.pc && s.pc[u].AskSwap? {
      StaleSwap(s, t, u);
    } else if Opening(s) {
      var u :| u in s.pc && s.pc[u].TripSwap?;
      StaleOpening(s, [], u, now);
    } else {
      var u :| u in s.pc && (s.pc[u].AskClock? || s.pc[u].AskDue?);
      StaleWait(s, t, u);
    }
  }

  lemma TooSoon(grants: seq<int>, now: int)
    requires grants != [] && now < grants[|grants| - 1] + COOL_DOWN
    ensures !Spaced(grants + [now])
  {
    var all, k := grants + [now], |grants|;
    assert all[k - 1] + COOL_DOWN > all[k];
  }

  /** And every late wipe of a deadline lets a probe out at that very instant, and so breaks the spacing. */
  lemma LateClearGrants(s: Sys, t: nat, now: int) returns (more: seq<Move>)
    requires ClearsLate(s, Op(t, now)) && OnTime(s, Op(t, now)) && 0 <= now
    ensures var s' := Apply(s, Op(t, now));
            var grants := Exec(s', more).mem.grants;
            Along(s', more, Orderly) && grants == s.mem.grants + [now] && !Spaced(grants)
  {
    var s' := Apply(s, Op(t, now));
    more := [];
    if s.mem.state != Open {
      var u :| u in s.pc && s.pc[u].TripSwap?;
      more := SwapOpens(s', [], u);
    }
    more := AskOpen(s', more);
    TooSoon(s.mem.grants, now);
  }

  /** The wipe cannot be left out of account: over all continuations with a proper clock no grant is safe, since
      the hook of the probe itself may come to its wipe after the circuit has been opened again. */
  lemma NoGrantIsSafe(s: Sys, t: nat, now: int) returns (more: seq<Move>)
    requires Grants(s, Op(t, now)) && 0 <= now
    ensures var s' := Apply(s, Op(t, now));
            Along(s', more, OnTime) && Exec(s', more).mem.grants == s.mem.grants + [now, now]
  {
    var s' := Apply(s, Op(t, now));
    more := Then(s', [], Op(t, now));
    more := SucceedHalfway(s', more, t, now);
    more := Failures(s', more, 5, now);
    more := Then(s', more, Op(t, now));
    more := AskOpen(s', more);
  }

  // ----- a run for each window

  /** Five failures at time zero have opened the circuit. */
  lemma Opened() returns (moves: seq<Move>)
    ensures var s := Exec(INIT, moves);
            && s.pc == map[] && s.mem.state == Open && s.mem.retryAfter == COOL_DOWN && s.mem.grants == [] && s.clock == 0
            && Along(INIT, moves, OnTime) && Along(INIT, moves, Orderly) && Along(INIT, moves, GrantsSecurely)
  {
    moves := Failures(INIT, [], 5, 0);
  }

  /** A new caller has passed the deadline of an open circuit and is about to swap the state. */
  lemma AskHalfway(s: Sys, moves: seq<Move>, now: int) returns (longer: seq<Move>, u: nat)
    requires var r := Exec(s, moves);
             Along(s, moves, Orderly) && r.mem.state == Open && r.mem.retryAfter <= now && r.clock <= now
    ensures var r, r' := Exec(s, moves), Exec(s, longer);
            && Along(s, longer, Orderly)
            && u !in r.pc && r' == r.(pc := r.pc[u := AskSwap], clock := now, admitted := r'.admitted, upgraded := r'.upgraded)
  {
    var r := Exec(s, moves);
    u := Outsider(r);
    longer := Then(s, moves, Start(u, Asking));
    longer := Then(s, longer, Op(u, now));
    longer := Then(s, longer, Op(u, now));
    longer := Then(s, longer, Op(u, now));
    assert r.pc[u := AskState][u := AskClock][u := AskDue(now)][u := AskSwap] == r.pc[u := AskSwap];
  }

  /** A new caller gets the probe, and its request fails. */
  lemma ProbeFails(s: Sys, moves: seq<Move>, now: int) returns (longer: seq<Move>)
    requires var r := Exec(s, moves);
             Along(s, moves, Orderly) && r.mem.state == Open && r.mem.retryAfter <= now && r.clock <= now
    ensures var r, r' := Exec(s, moves), Exec(s, longer);
            && Along(s, longer, Orderly)
            && r'.mem.state == Open && r'.mem.grants == r.mem.grants + [now] && r'.pc == r.pc && r'.clock == now
  {
    var r := Exec(s, moves);
    var t := Outsider(r);
    SoloIsAtomic(r, t, Asking, now);
    longer := SoloIsRun(s, moves, t, Asking, now);
    SoloIsAtomic(Exec(s, longer), t, Failing, now);
    longer := SoloIsRun(s, longer, t, Failing, now);
  }

  /** First window: between reading the deadline and swapping the state, the circuit goes from open to
      half-open and back.  Two probes are granted at the same instant; no deadline was wiped late. */
  lemma StaleAskerCoincides() returns (moves: seq<Move>)
    ensures Along(INIT, moves, Orderly) && Exec(INIT, moves).mem.grants == [COOL_DOWN, COOL_DOWN]
  {
    moves := Opened();
    var u: nat;
    moves, u := AskHalfway(INIT, moves, COOL_DOWN);
    moves := ProbeFails(INIT, moves, COOL_DOWN);
    moves := Then(INIT, moves, Op(u, COOL_DOWN));
  }

  /** The request of goroutine `t` succeeds in a half-open circuit, but for the store that wipes the deadline. */
  lemma SucceedHalfway(s: Sys, moves: seq<Move>, t: nat, now: int) returns (longer: seq<Move>)
    requires var r := Exec(s, moves); r.mem.state == HalfOpen && t in r.admitted && t !in r.pc && r.clock <= now
    ensures var r, r' := Exec(s, moves), Exec(s, longer);
            && r'.pc == r.pc[t := OkClear] && r'.clock == now && r'.mem.grants == r.mem.grants
            && r'.mem.state == Closed && r'.mem.healthy && r'.mem.failures == 0
            && (Along(s, moves, OnTime) ==> Along(s, longer, OnTime))
            && (Along(s, moves, GrantsSecurely) ==> Along(s, longer, GrantsSecurely))
  {
    var r := Exec(s, moves);
    longer := Then(s, moves, Start(t, Succeeding));
    longer := Then(s, longer, Op(t, now));
    longer := Then(s, longer, Op(t, now));
    longer := Then(s, longer, Op(t, now));
    assert r.pc[t := OkReset][t := OkSwap][t := OkRestore][t := OkClear] == r.pc[t := OkClear];
  }

  lemma ProbeStopsShort() returns (moves: seq<Move>, t: nat)
    ensures var s := Exec(INIT, moves);
            && s.pc == map[t := OkClear] && s.clock == COOL_DOWN && s.mem.grants == [COOL_DOWN]
            && s.mem.state == Closed && s.mem.healthy && s.mem.failures == 0
            && Along(INIT, moves, OnTime) && Along(INIT, moves, GrantsSecurely)
  {
    moves := Opened();
    var s := Exec(INIT, moves);
    t := Outsider(s);
    SoloIsAtomic(s, t, Asking, COOL_DOWN);
    moves := SoloIsRun(INIT, moves, t, Asking, COOL_DOWN);
    moves := SucceedHalfway(INIT, moves, t, COOL_DOWN);
  }

  /** Second window: a response hook closes the circuit and stops short of wiping the deadline until the
      circuit has been opened anew.  No asker is ever interrupted. */
  lemma LateClearCoincides() returns (moves: seq<Move>)
    ensures Along(INIT, moves, OnTime) && Along(INIT, moves, GrantsSecurely)
    ensures Exec(INIT, moves).mem.grants == [COOL_DOWN, COOL_DOWN]
  {
    var t: nat;
    moves, t := ProbeStopsShort();
    moves := Failures(INIT, moves, 5, COOL_DOWN);
    moves := Then(INIT, moves, Op(t, COOL_DOWN));
    moves := AskOpen(INIT, moves);
  }

  /** A new caller is let into a closed circuit. */
  lemma LetIn(s: Sys, moves: seq<Move>, now: int) returns (longer: seq<Move>, t: nat)
    requires var r := Exec(s, moves); Along(s, moves, Orderly) && r.mem.state == Closed && r.mem.healthy && r.clock <= now
    ensures var r, r' := Exec(s, moves), Exec(s, longer);
            && Along(s, longer, Orderly) && t !in r.pc && t !in r.admitted
            && View(r'.mem) == View(r.mem) && r'.mem.grants == r.mem.grants && r'.pc == r.pc && r'.clock == now
            && r'.admitted == r.admitted + {t}
  {
    var r := Exec(s, moves);
    t := Outsider(r);
    SoloIsAtomic(r, t, Asking, now);
    longer := SoloIsRun(s, moves, t, Asking, now);
  }

  /** The request of goroutine `t` fails in a closed circuit and is counted as the fifth, or beyond. */
  lemma CountsFifth(s: Sys, moves: seq<Move>, t: nat, now: int) returns (longer: seq<Move>)
    requires var r := Exec(s, moves);
             && Along(s, moves, Orderly) && r.mem.state == Closed && r.mem.failures + 1 >= TRIP_AT && r.clock <= now
             && t in r.admitted && t !in r.pc
    ensures var r, r' := Exec(s, moves), Exec(s, longer);
            && Along(s, longer, Orderly)
            && r'.mem == r.mem.(failures := r.mem.failures + 1) && r'.pc == r.pc[t := TripHealth] && r'.clock == now
            && r'.admitted == r.admitted - {t}
  {
    var r := Exec(s, moves);
    longer := Then(s, moves, Start(t, Failing));
    longer := Then(s, longer, Op(t, now));
    longer := Then(s, longer, Op(t, now));
    assert r.pc[t := ErrState][t := ErrCount][t := TripHealth] == r.pc[t := TripHealth];
  }

  /** Two goroutines both count past the fourth failure. */
  lemma TwoCount() returns (moves: seq<Move>, u: nat, v: nat)
    ensures var s := Exec(INIT, moves);
            && Along(INIT, moves, Orderly) && u != v && s.pc == map[u := TripHealth, v := TripHealth]
            && s.mem.state == Closed && s.mem.grants == [] && s.clock == 0
  {
    moves := Failures(INIT, [], 4, 0);
    moves, u := LetIn(INIT, moves, 0);
    moves, v := LetIn(INIT, moves, 0);
    moves := CountsFifth(INIT, moves, u, 0);
    moves := CountsFifth(INIT, moves, v, 0);
  }

  lemma Advance(s: Sys, moves: seq<Move>, u: nat, now: int) returns (longer: seq<Move>)
    requires var r := Exec(s, moves);
             && Along(s, moves, Orderly) && r.clock <= now && u in r.pc && !r.pc[u].OkClear?
             && Do(r.mem, r.pc[u], now).1.Goto?
    ensures var r := Exec(s, moves);
            var (m, n) := Do(r.mem, r.pc[u], now);
            && Along(s, longer, Orderly)
            && Exec(s, longer) == r.(mem := m, pc := r.pc[u := n.pc], clock := now)
  {
    longer := Then(s, moves, Op(u, now));
  }

  /** Goroutine `u` is inside `openCircuit` and has read the clock. */
  lemma TripHalfway(s: Sys, moves: seq<Move>, u: nat, now: int) returns (longer: seq<Move>)
    requires var r := Exec(s, moves); Along(s, moves, Orderly) && u in r.pc && r.pc[u].TripHealth? && r.clock <= now
    ensures var r, r' := Exec(s, moves), Exec(s, longer);
            && Along(s, longer, Orderly) && r'.mem.grants == r.mem.grants
            && r'.pc == r.pc[u := TripDeadline(now)] && r'.clock == now
  {
    var r := Exec(s, moves);
    longer := Advance(s, moves, u, now);
    longer := Advance(s, longer, u, now);
    longer := Advance(s, longer, u, now);
    assert r.pc[u := TripReset][u := TripClock][u := TripDeadline(now)] == r.pc[u := TripDeadline(now)];
  }

  /** Goroutine `u` stores its deadline and opens the circuit. */
  lemma TripEnds(s: Sys, moves: seq<Move>, u: nat, now: int) returns (longer: seq<Move>)
    requires var r := Exec(s, moves); Along(s, moves, Orderly) && u in r.pc && r.pc[u].TripDeadline? && r.clock <= now
    ensures var r, r' := Exec(s, moves), Exec(s, longer);
            && Along(s, longer, Orderly) && r'.pc == r.pc - {u} && r'.clock == now
            && r'.mem.state == Open && r'.mem.retryAfter == r.pc[u].read + COOL_DOWN && r'.mem.grants == r.mem.grants
  {
    longer := Then(s, moves, Op(u, now));
    longer := Then(s, longer, Op(u, now));
  }

  /** Third window: `openCircuit` stores a deadline computed from a clock reading older than the last probe. */
  lemma StaleClockCoincides() returns (moves: seq<Move>)
    ensures Along(INIT, moves, Orderly) && Exec(INIT, moves).mem.grants == [COOL_DOWN, COOL_DOWN]
  {
    var u: nat, v: nat;
    moves, u, v := TwoCount();
    moves := TripHalfway(INIT, moves, u, 0);
    moves := TripHalfway(INIT, moves, v, 0);
    moves := TripEnds(INIT, moves, v, 0);
    moves := AskOpen(INIT, moves);
    moves := TripEnds(INIT, moves, u, COOL_DOWN);
    moves := AskOpen(INIT, moves);
  }

  // ----- and a run for the stranded circuit

  /** A granted probe that is dropped before any hook runs strands the backend for good. */
  lemma DroppedProbeStrands() returns (moves: seq<Move>)
    ensures var s := Exec(INIT, moves); Along(INIT, moves, Orderly) && s.pc == map[] && !CanRecover(s)
  {
    moves := Failures(INIT, [], 5, 0);
    var s := Exec(INIT, moves);
    var t := Outsider(s);
    SoloIsAtomic(s, t, Asking, COOL_DOWN);
    moves := SoloIsRun(INIT, moves, t, Asking, COOL_DOWN);
    moves := Then(INIT, moves, Abandon(t));
    RestingStateRecoversIff(moves);
  }
}
