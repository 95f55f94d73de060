/** The retrying transport: a bounded loop with a capped exponential wait. */
module Retry {
  import opened Wrappers

  const SECOND: int := 1_000_000_000

  /** What the base transport returns: an error, a response with the identity of its body, or neither. */
  datatype Outcome =
    | Failed(error: int)
    | Response(status: int, body: Option<nat>)
    | Nothing

  predicate Retryable(o: Outcome) {
    match o
    case Failed(_) => true
    case Nothing => false
    case Response(status, _) => status == 502 || status == 503 || status == 504
  }

  datatype Method = Get | Head | Other

  /** A request: whether it has a body, and whether that body can be made again. */
  datatype Request = Request(verb: Method, hasBody: bool, hasGetBody: bool)

  /** Everything the environment decides: the base outcomes, failures to remake the body, and when the
      context of the request is found to be done. */
  datatype World = World(
    outcome: nat -> Outcome,
    bodyFails: nat -> bool,
    doneBefore: bool,
    doneAfter: nat -> bool,
    doneWaiting: nat -> bool)

  datatype Result = Returned(o: Outcome) | Cancelled | BodyError | Exhausted

  /** What happened: the result, the base calls, the bodies closed and the waits, in order. */
  datatype Trace = Trace(result: Result, calls: nat, closed: seq<nat>, waits: seq<int>)

  function Pow2(k: nat): int {
    if k == 0 then 1 else 2 * Pow2(k - 1)
  }

  function BodyOf(o: Outcome): seq<nat> {
    if o.Response? && o.body.Some? then [o.body.value] else []
  }

  /** The bodies of the first `n` outcomes, in order. */
  function Bodies(outcome: nat -> Outcome, n: nat): seq<nat> {
    if n == 0 then [] else Bodies(outcome, n - 1) + BodyOf(outcome(n - 1))
  }

  /** The wait after attempt `k`. */
  function Wait(backoff: int, k: nat): int {
    Min(SECOND, backoff * Pow2(k))
  }

  function Waits(backoff: int, n: nat): seq<int> {
    if n == 0 then []
    else Waits(backoff, n - 1) + (if Wait(backoff, n - 1) > 0 then [Wait(backoff, n - 1)] else [])
  }

  /** A full second stays a full second under further doubling. */
  lemma {:induction false} Pow2Grows(backoff: int, j: nat, k: nat)
    requires j <= k && backoff * Pow2(j) >= SECOND
    ensures backoff * Pow2(k) >= SECOND
  {
    if j < k {
      Pow2Grows(backoff, j, k - 1);
      assert backoff * Pow2(k) == 2 * (backoff * Pow2(k - 1));
    }
  }

  /** The doubling loop.  It computes the capped power, and once capped it never holds more than a second:
      `peak` is the largest value it takes. */
  method Delay(backoff: int, attempt: nat) returns (delay: int, ghost peak: int)
    ensures delay == Wait(backoff, attempt)
    ensures delay <= peak <= 1_000_000_000
  {
    delay := backoff;
    if delay > SECOND {
      delay := SECOND;
    }
    peak := delay;
    var i := 0;
    while i < attempt && delay < SECOND
      invariant 0 <= i <= attempt
      invariant delay <= peak <= SECOND
      invariant delay == Wait(backoff, i)
    {
      assert backoff * Pow2(i + 1) == 2 * (backoff * Pow2(i));
      if delay > SECOND / 2 {
        delay := SECOND;
      } else {
        delay := delay * 2;
      }
      peak := if delay > peak then delay else peak;
      i := i + 1;
    }
    if i < attempt {
      Pow2Grows(backoff, i, attempt);
    }
  }

  /** The waits: none without a positive backoff; otherwise one after each retry, of the backoff doubled each time and
      never more than a second. */
  lemma {:induction false} WaitsAre(backoff: int, n: nat)
    ensures backoff <= 0 ==> Waits(backoff, n) == []
    ensures backoff > 0 ==> |Waits(backoff, n)| == n
    ensures backoff > 0 ==> forall k :: 0 <= k < n ==>
              Waits(backoff, n)[k] == if backoff * Pow2(k) < 1_000_000_000 then backoff * Pow2(k) else 1_000_000_000
  {
    if n > 0 {
      WaitsAre(backoff, n - 1);
      Pow2Positive(n - 1);
      assert backoff <= 0 ==> backoff * Pow2(n - 1) <= 0;
      assert backoff > 0 ==> backoff * Pow2(n - 1) > 0;
    }
  }

  lemma {:induction false} Pow2Positive(k: nat)
    ensures Pow2(k) > 0 && Pow2(k + 1) == Pow2(k) + Pow2(k) && Pow2(0) == 1
  {
    if k > 0 {
      Pow2Positive(k - 1);
    }
  }

  /** The bodies closed are those of the responses, in their order. */
  lemma {:induction false} BodiesAre(outcome: nat -> Outcome, n: nat, id: nat)
    ensures id in Bodies(outcome, n) <==> exists i :: 0 <= i < n && outcome(i).Response? && outcome(i).body == Some(id)
    ensures |Bodies(outcome, n)| <= n
    ensures n > 0 ==> Bodies(outcome, n - 1) <= Bodies(outcome, n)
  {
    if n > 0 {
      BodiesAre(outcome, n - 1, id);
      var here := outcome(n - 1).Response? && outcome(n - 1).body == Some(id);
      assert id in Bodies(outcome, n) <==> id in Bodies(outcome, n - 1) || here;
    }
  }

  /** How many leading outcomes of the first `limit` call for a retry. */
  function Leading(outcome: nat -> Outcome, limit: nat): (n: nat)
    ensures n <= limit
    ensures forall i :: 0 <= i < n ==> Retryable(outcome(i))
    ensures n < limit ==> !Retryable(outcome(n))
  {
    LeadingFrom(outcome, 0, limit)
  }

  function LeadingFrom(outcome: nat -> Outcome, from: nat, limit: nat): (n: nat)
    requires from <= limit
    ensures from <= n <= limit
    ensures forall i :: from <= i < n ==> Retryable(outcome(i))
    ensures n < limit ==> !Retryable(outcome(n))
    decreases limit - from
  {
    if from == limit || !Retryable(outcome(from)) then from else LeadingFrom(outcome, from + 1, limit)
  }

  /** The trace of `n` retryable outcomes and one more: all but the last response closed, a wait after
      each. */
  function Undisturbed(outcome: nat -> Outcome, backoff: int, n: nat): Trace {
    Trace(Returned(outcome(n)), n + 1, Bodies(outcome, n), Waits(backoff, n))
  }

  lemma LeadingIs(outcome: nat -> Outcome, limit: nat, n: nat)
    requires n <= limit && (forall i :: 0 <= i < n ==> Retryable(outcome(i)))
    requires n == limit || !Retryable(outcome(n))
    ensures Leading(outcome, limit) == n
  {}

  /** Nothing in the environment interrupts the request. */
  ghost predicate Calm(w: World) {
    !w.doneBefore && forall k :: !w.bodyFails(k) && !w.doneAfter(k) && !w.doneWaiting(k)
  }

  /** No response is lost: every body of every call is closed, except that of the response returned,
      which is the last; and no call follows an outcome that calls for no retry. */
  ghost predicate Lossless(w: World, t: Trace) {
    && (t.result.Returned? ==> t.calls >= 1 && t.result.o == w.outcome(t.calls - 1))
    && t.closed == Bodies(w.outcome, if t.result.Returned? then t.calls - 1 else t.calls)
    && forall i :: 0 <= i < t.calls - 1 ==> Retryable(w.outcome(i))
  }

  /** The outcome calls for a retry: an error, or one of three statuses. */
  predicate Transient(o: Outcome) {
    o.Failed? || (o.Response? && o.status in {502, 503, 504})
  }

  /** The context of the request is done after attempt `i`, at once or while the loop waits. */
  predicate Interrupted(w: World, backoff: int, i: nat) {
    w.doneAfter(i) || (Wait(backoff, i) > 0 && w.doneWaiting(i))
  }

  /** Attempt `i` is followed by another one. */
  predicate GoesOn(req: Request, attempts: int, backoff: int, w: World, i: nat) {
    && Transient(w.outcome(i)) && i + 1 < attempts
    && !Interrupted(w, backoff, i) && !(req.hasBody && w.bodyFails(i + 1))
  }

  /** What a run of at least one attempt comes to, whatever disturbs it: every attempt but the last is followed by
      another, and the last one tells the result and the waits. */
  ghost predicate Fate(req: Request, attempts: int, backoff: int, w: World, t: Trace) {
    && t.calls >= 1
    && (forall i :: 0 <= i < t.calls - 1 ==> GoesOn(req, attempts, backoff, w, i))
    && var last := t.calls - 1;
       && !GoesOn(req, attempts, backoff, w, last)
       && t.result == (if !Transient(w.outcome(last)) || t.calls == attempts then Returned(w.outcome(last))
                       else if Interrupted(w, backoff, last) then Cancelled
                       else BodyError)
       && t.waits == Waits(backoff, if t.result.Returned? || w.doneAfter(last) then last else t.calls)
  }

  /** That tells everything. */
  lemma FateIsUnique(req: Request, attempts: int, backoff: int, w: World, t: Trace, u: Trace)
    requires Fate(req, attempts, backoff, w, t) && Fate(req, attempts, backoff, w, u)
    requires Lossless(w, t) && Lossless(w, u)
    ensures t == u
  {}

  lemma TransientIs(o: Outcome)
    ensures Transient(o) <==> Retryable(o)
  {}

  /** In peace: as many calls as there are leading outcomes that call for a retry, and one more. */
  lemma FateInPeace(req: Request, attempts: int, backoff: int, w: World, t: Trace)
    requires Fate(req, attempts, backoff, w, t) && Lossless(w, t) && Calm(w) && t.calls <= attempts
    ensures t == Undisturbed(w.outcome, backoff, Leading(w.outcome, attempts - 1))
  {
    var last := t.calls - 1;
    TransientIs(w.outcome(last));
    LeadingIs(w.outcome, attempts - 1, last);
  }

  /** The attempts before this one are over, and each was followed by another. */
  ghost predicate Reached(req: Request, attempts: int, backoff: int, w: World, attempt: nat) {
    && (forall i :: 0 <= i < attempt ==> Transient(w.outcome(i)) && !Interrupted(w, backoff, i))
    && (forall i :: 0 < i < attempt ==> !(req.hasBody && w.bodyFails(i)))
  }

  /** Attempt `attempt` begins: its body, if it needs one again, could be made. */
  ghost predicate Begins(req: Request, attempts: int, backoff: int, w: World, attempt: nat) {
    && Reached(req, attempts, backoff, w, attempt) && attempt < attempts
    && !(attempt > 0 && req.hasBody && w.bodyFails(attempt))
  }

  lemma ReachedGoesOn(req: Request, attempts: int, backoff: int, w: World, attempt: nat)
    requires Reached(req, attempts, backoff, w, attempt) && attempt < attempts
    ensures forall i :: 0 <= i < attempt - 1 ==> GoesOn(req, attempts, backoff, w, i)
    ensures Begins(req, attempts, backoff, w, attempt) ==>
              forall i :: 0 <= i < attempt ==> GoesOn(req, attempts, backoff, w, i)
    ensures forall i :: 0 <= i < attempt ==> Retryable(w.outcome(i))
  {
    forall i | 0 <= i < attempt ensures Retryable(w.outcome(i)) {
      TransientIs(w.outcome(i));
    }
  }

  ghost predicate Over(req: Request, attempts: int, backoff: int, w: World, t: Trace) {
    Lossless(w, t) && t.calls <= attempts && Fate(req, attempts, backoff, w, t)
  }

  lemma BodyErrorIsOver(req: Request, attempts: int, backoff: int, w: World, attempt: nat)
    requires Reached(req, attempts, backoff, w, attempt) && 0 < attempt < attempts && req.hasBody && w.bodyFails(attempt)
    ensures Over(req, attempts, backoff, w, Trace(BodyError, attempt, Bodies(w.outcome, attempt), Waits(backoff, attempt)))
  {
    ReachedGoesOn(req, attempts, backoff, w, attempt);
  }

  lemma ReturnIsOver(req: Request, attempts: int, backoff: int, w: World, attempt: nat)
    requires Begins(req, attempts, backoff, w, attempt)
    requires attempt == attempts - 1 || !Transient(w.outcome(attempt))
    ensures Over(req, attempts, backoff, w,
                 Trace(Returned(w.outcome(attempt)), attempt + 1, Bodies(w.outcome, attempt), Waits(backoff, attempt)))
  {
    ReachedGoesOn(req, attempts, backoff, w, attempt);
  }

  lemma InterruptionIsOver(req: Request, attempts: int, backoff: int, w: World, attempt: nat)
    requires Begins(req, attempts, backoff, w, attempt)
    requires attempt < attempts - 1 && Transient(w.outcome(attempt)) && Interrupted(w, backoff, attempt)
    ensures Over(req, attempts, backoff, w,
                 Trace(Cancelled, attempt + 1, Bodies(w.outcome, attempt + 1),
                       Waits(backoff, if w.doneAfter(attempt) then attempt else attempt + 1)))
  {
    ReachedGoesOn(req, attempts, backoff, w, attempt);
  }

  /** The wait after an attempt; a context that is done ends it. */
  method Pause(backoff: int, attempt: nat, w: World, waits: seq<int>) returns (waits': seq<int>, done: bool)
    requires waits == Waits(backoff, attempt)
    ensures waits' == Waits(backoff, attempt + 1)
    ensures done <==> Wait(backoff, attempt) > 0 && w.doneWaiting(attempt)
  {
    var delay;
    ghost var peak;
    delay, peak := Delay(backoff, attempt);
    if delay <= 0 {
      return waits, false;
    }
    return waits + [delay], w.doneWaiting(attempt);
  }

  /** The retry loop. */
  method Loop(req: Request, attempts: int, backoff: int, w: World) returns (t: Trace)
    ensures attempts >= 1 ==> Over(req, attempts, backoff, w, t)
    ensures attempts < 1 ==> t == Trace(Exhausted, 0, [], [])
  {
    var attempt := 0;
    var closed: seq<nat> := [];
    var waits: seq<int> := [];
    while attempt < attempts
      invariant if attempts >= 1 then 0 <= attempt < attempts else attempt == 0
      invariant Reached(req, attempts, backoff, w, attempt)
      invariant closed == Bodies(w.outcome, attempt)
      invariant waits == Waits(backoff, attempt)
      decreases attempts - attempt
    {
      if attempt > 0 && req.hasBody && w.bodyFails(attempt) {
        BodyErrorIsOver(req, attempts, backoff, w, attempt);
        return Trace(BodyError, attempt, closed, waits);
      }
      var response := w.outcome(attempt);
      TransientIs(response);
      if attempt == attempts - 1 || !Retryable(response) {
        ReturnIsOver(req, attempts, backoff, w, attempt);
        return Trace(Returned(response), attempt + 1, closed, waits);
      }
      if response.Response? && response.body.Some? {
        closed := closed + [response.body.value];
      }
      if w.doneAfter(attempt) {
        InterruptionIsOver(req, attempts, backoff, w, attempt);
        return Trace(Cancelled, attempt + 1, closed, waits);
      }
      var done;
      waits, done := Pause(backoff, attempt, w, waits);
      if done {
        InterruptionIsOver(req, attempts, backoff, w, attempt);
        return Trace(Cancelled, attempt + 1, closed, waits);
      }
      attempt := attempt + 1;
    }
    return Trace(Exhausted, 0, closed, waits);
  }

  method RoundTrip(req: Request, retries: int, backoff: int, w: World) returns (t: Trace)
    ensures Lossless(w, t)
    // Other methods go straight through.
    ensures req.verb == Other ==> t == Trace(Returned(w.outcome(0)), 1, [], [])
    // A context that is done stops the request before it begins.
    ensures req.verb != Other && w.doneBefore ==> t == Trace(Cancelled, 0, [], [])
    // One attempt, and as many more as there are retries if the body can be sent again.
    ensures req.verb != Other && !w.doneBefore ==>
              var attempts := if !req.hasBody || req.hasGetBody then retries + 1 else 1;
              && (attempts >= 1 ==> t.calls <= attempts && Fate(req, attempts, backoff, w, t))
              // Undisturbed: exactly as many calls as the outcomes ask for, and the capped exponential waits.
              && (attempts >= 1 && Calm(w) ==> t == Undisturbed(w.outcome, backoff, Leading(w.outcome, attempts - 1)))
              // The last error is for a negative retry count only.
              && (attempts < 1 ==> t == Trace(Exhausted, 0, [], []))
              && (t.result == Exhausted <==> attempts < 1)
  {
    if req.verb != Get && req.verb != Head {
      return Trace(Returned(w.outcome(0)), 1, [], []);
    }
    if w.doneBefore {
      return Trace(Cancelled, 0, [], []);
    }
    var attempts := retries + 1;
    if !(!req.hasBody || req.hasGetBody) {
      attempts := 1;
    }
    t := Loop(req, attempts, backoff, w);
    if attempts >= 1 && Calm(w) {
      FateInPeace(req, attempts, backoff, w, t);
    }
  }
}
