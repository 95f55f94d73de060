/** What holds of a circuit over whole runs of calls. */
module BreakerRuns {
  import opened Breaker

  /** The circuit after the calls `es`. */
  function Run(c: Circuit, es: seq<Event>): Circuit {
    if es == [] then c else Step(Run(c, es[..|es| - 1]), es[|es| - 1])
  }

  /** No health check is configured, so no health check ever ends. */
  ghost predicate Passive(es: seq<Event>) {
    forall i :: 0 <= i < |es| ==> !es[i].Check?
  }

  ghost predicate ClockNondecreasing(es: seq<Event>) {
    forall i, j :: 0 <= i < j < |es| ==> es[i].at <= es[j].at
  }

  /** The state of a fresh circuit before the `k`-th call of the run. */
  function StateAt(es: seq<Event>, k: nat): State
    requires k <= |es|
  {
    Run(FRESH, es[..k]).state
  }

  /** Failures since the last success or change of state, read off the run and not off the counter. */
  function Streak(es: seq<Event>): nat {
    if es == [] then 0
    else
      var n := |es| - 1;
      if es[n] == Finish(es[n].at, true) || StateAt(es, n) != StateAt(es, n + 1) then 0
      else Streak(es[..n]) + (if es[n].Finish? then 1 else 0)
  }

  /** The `k`-th call hands out the probe. */
  predicate GrantAt(es: seq<Event>, k: nat)
    requires k < |es|
  {
    StateAt(es, k) == Open && StateAt(es, k + 1) == HalfOpen
  }

  lemma PrefixOfPrefix(es: seq<Event>, k: nat)
    requires k < |es|
    ensures es[..k + 1][..k] == es[..k]
    ensures Run(FRESH, es[..k + 1]) == Step(Run(FRESH, es[..k]), es[k])
  {
    assert es[..k + 1][..k] == es[..k];
  }

  /** The counter is exactly the streak while closed, zero otherwise and never five; the backend is
      healthy exactly when it is not open. */
  lemma {:induction false} CounterIsStreak(es: seq<Event>)
    requires Passive(es)
    ensures var c := Run(FRESH, es);
            && !c.checked
            && 0 <= c.failures < TRIP_AT
            && c.failures == (if c.state == Closed then Streak(es) else 0)
            && (c.healthy <==> c.state != Open)
  {
    if es != [] {
      var n := |es| - 1;
      assert es[..n + 1] == es;
      CounterIsStreak(es[..n]);
    }
  }

  /** The breaker leaves closed exactly on the fifth consecutive failure, and then opens. */
  lemma {:induction false} TripsOnFifthFailure(es: seq<Event>, k: nat)
    requires Passive(es) && k < |es| && StateAt(es, k) == Closed
    ensures StateAt(es, k + 1) != Closed <==> es[k] == Finish(es[k].at, false) && Streak(es[..k]) == 4
    ensures StateAt(es, k + 1) != HalfOpen
  {
    CounterIsStreak(es[..k]);
    PrefixOfPrefix(es, k);
  }

  /** The call opens the circuit. */
  predicate OpensAt(es: seq<Event>, i: nat)
    requires i < |es|
  {
    StateAt(es, i) != Open && StateAt(es, i + 1) == Open
  }

  /** From the call that opens a circuit until the next grant nothing changes, whatever ends, fails or asks: the
      deadline stays thirty seconds after that call.  And the next grant is the first ask from then on. */
  lemma {:induction false} OpenUntilDeadline(es: seq<Event>, i: nat, k: nat)
    requires Passive(es) && i < k < |es| && OpensAt(es, i)
    requires forall j :: i < j < k ==> !GrantAt(es, j)
    ensures Run(FRESH, es[..k]) == Circuit(false, Open, false, es[i].at + 30_000_000_000, 0)
    ensures GrantAt(es, k) <==> es[k].Ask? && es[i].at + 30_000_000_000 <= es[k].at
  {
    PrefixOfPrefix(es, k);
    if k == i + 1 {
      CounterIsStreak(es[..i]);
      PrefixOfPrefix(es, i);
    } else {
      OpenUntilDeadline(es, i, k - 1);
      PrefixOfPrefix(es, k - 1);
      assert !GrantAt(es, k - 1);
    }
  }

  /** A half-open circuit waits for the end of a request: a success closes it, a failure opens it again. */
  lemma {:induction false} HalfOpenIsDecided(es: seq<Event>, k: nat)
    requires Passive(es) && k < |es| && StateAt(es, k) == HalfOpen
    ensures StateAt(es, k + 1) == match es[k] case Finish(_, ok) => (if ok then Closed else Open) case _ => HalfOpen
  {
    CounterIsStreak(es[..k]);
    PrefixOfPrefix(es, k);
  }

  /** An open circuit refuses until thirty seconds after every earlier grant. */
  lemma {:induction false} OpenOutlastsGrants(es: seq<Event>, i: nat)
    requires Passive(es) && ClockNondecreasing(es)
    requires i < |es| && GrantAt(es, i)
    ensures var c := Run(FRESH, es); c.state == Open ==> es[i].at + COOL_DOWN <= c.retryAfter
  {
    var n := |es| - 1;
    PrefixOfPrefix(es, n);
    assert es[..n + 1] == es;
    CounterIsStreak(es[..n]);
    if i < n {
      assert es[..n][..i] == es[..i] && es[..n][..i + 1] == es[..i + 1];
      OpenOutlastsGrants(es[..n], i);
    }
  }

  /** Any two half-open grants are at least thirty seconds apart, whatever happens in between. */
  lemma {:induction false} GrantsAreSpaced(es: seq<Event>, i: nat, j: nat)
    requires Passive(es) && ClockNondecreasing(es)
    requires i < j < |es| && GrantAt(es, i) && GrantAt(es, j)
    ensures es[i].at + COOL_DOWN <= es[j].at
  {
    var pre := es[..j];
    assert pre[..i] == es[..i] && pre[..i + 1] == es[..i + 1];
    OpenOutlastsGrants(pre, i);
    PrefixOfPrefix(es, j);
    CounterIsStreak(pre);
  }

  /** What a caller of `Available` can count on at any point of any run. */
  lemma {:induction false} AnswerIsExact(es: seq<Event>, now: int)
    requires Passive(es)
    ensures var c := Run(FRESH, es);
            Answer(c, now) <==> c.state == Closed || (c.state == Open && c.retryAfter <= now)
  {
    CounterIsStreak(es);
  }

  ghost predicate OnlyAsks(es: seq<Event>) {
    forall i :: 0 <= i < |es| ==> es[i].Ask?
  }

  /** A half-open circuit whose probe is never sent stays half-open, and refuses every caller at
      every time: only the end of a request can move it. */
  lemma {:induction false} HalfOpenIsStranded(c: Circuit, es: seq<Event>, now: int)
    requires !c.checked && c.state == HalfOpen && OnlyAsks(es)
    ensures Run(c, es) == c && !Answer(Run(c, es), now)
  {
    if es != [] {
      HalfOpenIsStranded(c, es[..|es| - 1], now);
    }
  }

  /** The verdict of the last health check, which is `false` before the first one. */
  function LastCheck(es: seq<Event>): bool {
    if es == [] then false
    else if es[|es| - 1].Check? then es[|es| - 1].ok
    else LastCheck(es[..|es| - 1])
  }

  /** With a health check path, availability is the last check's verdict: no request outcome counts.  The state
      follows it, from the first check on, and nothing else ever moves. */
  lemma {:induction false} CheckedFollowsLastCheck(es: seq<Event>, now: int)
    ensures var c := Run(FRESH.(checked := true, healthy := false), es);
            && Answer(c, now) == LastCheck(es)
            && c.state == (if LastCheck(es) || Passive(es) then Closed else Open)
            && c.checked && c.failures == 0 && c.retryAfter == 0
  {
    if es != [] {
      CheckedFollowsLastCheck(es[..|es| - 1], now);
      assert Passive(es) <==> Passive(es[..|es| - 1]) && !es[|es| - 1].Check?;
    }
  }
}
