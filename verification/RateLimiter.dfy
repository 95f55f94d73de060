/** The fixed-window rate limiter, its lazy purging, and the counter it must agree with. */
module RateLimiter {
  import opened Wrappers

  datatype Bucket = Bucket(count: int, resetTime: int)

  const MINUTE: int := 60_000_000_000

  function CleanupInterval(window: int): int {
    if window <= 0 || window > MINUTE then MINUTE else window
  }

  datatype Limits = Limits(maxRequests: int, window: int)

  // ----- the never-purged counter of one key

  /** The bucket of one key after a call at `now`, when nothing else ever touches it. */
  function Count(l: Limits, b: Option<Bucket>, now: int): Bucket {
    if b.None? || b.value.resetTime <= now then Bucket(1, now + l.window)
    else Bucket(b.value.count + 1, b.value.resetTime)
  }

  /** A call is allowed if it starts a bucket or is among the first `maxRequests` of its bucket. */
  predicate Admits(l: Limits, b: Option<Bucket>, now: int) {
    b.None? || b.value.resetTime <= now || b.value.count + 1 <= l.maxRequests
  }

  datatype Call = Call(key: string, at: int)

  /** The bucket that the calls of `key` alone have built up. */
  function Pure(l: Limits, calls: seq<Call>, key: string): Option<Bucket> {
    if calls == [] then None
    else
      var n := |calls| - 1;
      var b := Pure(l, calls[..n], key);
      if calls[n].key == key then Some(Count(l, b, calls[n].at)) else b
  }

  /** What that counter answers to the last call. */
  predicate PureAnswer(l: Limits, calls: seq<Call>)
    requires calls != []
  {
    var n := |calls| - 1;
    Admits(l, Pure(l, calls[..n], calls[n].key), calls[n].at)
  }

  ghost predicate Nondecreasing(calls: seq<Call>) {
    forall i, j :: 0 <= i < j < |calls| ==> calls[i].at <= calls[j].at
  }

  // ----- the limiter

  datatype Memory = Memory(buckets: map<string, Bucket>, nextCleanup: Option<int>)

  predicate CleanupDue(m: Memory, now: int) {
    m.nextCleanup.None? || m.nextCleanup.value <= now
  }

  function Purged(buckets: map<string, Bucket>, now: int): map<string, Bucket> {
    map k | k in buckets && now < buckets[k].resetTime :: buckets[k]
  }

  function Lookup(buckets: map<string, Bucket>, key: string): Option<Bucket> {
    if key in buckets then Some(buckets[key]) else None
  }

  function Cleaned(l: Limits, m: Memory, now: int): Memory {
    if CleanupDue(m, now)
    then Memory(Purged(m.buckets, now), Some(now + CleanupInterval(l.window)))
    else m
  }

  function Step(l: Limits, m: Memory, call: Call): Memory {
    var m' := Cleaned(l, m, call.at);
    m'.(buckets := m'.buckets[call.key := Count(l, Lookup(m'.buckets, call.key), call.at)])
  }

  /** The limiter's answer to a call. */
  predicate Answer(l: Limits, m: Memory, call: Call) {
    Admits(l, Lookup(Cleaned(l, m, call.at).buckets, call.key), call.at)
  }

  function Run(l: Limits, calls: seq<Call>): Memory {
    if calls == [] then Memory(map[], None)
    else Step(l, Run(l, calls[..|calls| - 1]), calls[|calls| - 1])
  }

  class Limiter {
    const limits: Limits
    const cleanupInterval: int
    var buckets: map<string, Bucket>
    var nextCleanup: Option<int>

    ghost predicate Valid()
      reads this
    {
      cleanupInterval == CleanupInterval(limits.window)
    }

    function View(): Memory
      reads this
    {
      Memory(buckets, nextCleanup)
    }

    constructor (maxRequests: int, window: int)
      ensures Valid() && limits == Limits(maxRequests, window)
      ensures View() == Run(limits, []) && buckets == map[] && nextCleanup == None
      ensures cleanupInterval == if 0 < window <= 60_000_000_000 then window else 60_000_000_000
    {
      limits := Limits(maxRequests, window);
      var interval := window;
      if interval <= 0 || interval > MINUTE {
        interval := MINUTE;
      }
      cleanupInterval := interval;
      buckets := map[];
      nextCleanup := None;
    }

    /** Deletes the expired buckets one by one, in whatever order the map yields them. */
    method Purge(now: int)
      modifies this`buckets
      ensures buckets == Purged(old(buckets), now)
    {
      var todo := buckets.Keys;
      while todo != {}
        invariant todo <= buckets.Keys <= old(buckets).Keys
        invariant forall k :: k in buckets ==> buckets[k] == old(buckets)[k]
        invariant forall k :: k in old(buckets) && k !in todo ==> (k in buckets <==> now < old(buckets)[k].resetTime)
        decreases todo
      {
        var k :| k in todo;
        if buckets[k].resetTime <= now {
          buckets := buckets - {k};
        }
        todo := todo - {k};
      }
    }

    method Allow(key: string, now: int) returns (ok: bool)
      requires Valid()
      modifies this`buckets, this`nextCleanup
      ensures Valid()
      ensures View() == Step(limits, old(View()), Call(key, now))
      ensures ok == Answer(limits, old(View()), Call(key, now))
    {
      if nextCleanup.None? || nextCleanup.value <= now {
        Purge(now);
        nextCleanup := Some(now + cleanupInterval);
      }
      assert View() == Cleaned(limits, old(View()), now);
      if key !in buckets || buckets[key].resetTime <= now {
        buckets := buckets[key := Bucket(1, now + limits.window)];
        return true;
      }
      var bucket := buckets[key];
      bucket := Bucket(bucket.count + 1, bucket.resetTime);
      buckets := buckets[key := bucket];
      return bucket.count <= limits.maxRequests;
    }
  }

  // ----- lazy purging is invisible

  /** A call with a time before the last purge.  The middleware reads the clock before it takes the lock, so a
      racing request may have purged in between. */
  predicate Late(l: Limits, m: Memory, call: Call) {
    m.nextCleanup.Some? && call.at < m.nextCleanup.value - CleanupInterval(l.window)
  }

  /** No call is late.  Calls may still overtake each other. */
  predicate NoneLate(l: Limits, calls: seq<Call>) {
    calls == [] ||
    var n := |calls| - 1;
    NoneLate(l, calls[..n]) && !Late(l, Run(l, calls[..n]), calls[n])
  }

  /** In time order, none is. */
  lemma {:induction false} SortedNoneLate(l: Limits, calls: seq<Call>)
    requires Nondecreasing(calls)
    ensures NoneLate(l, calls)
    ensures calls == [] ==> Run(l, calls).nextCleanup.None?
    ensures calls != [] ==> !Late(l, Run(l, calls), calls[|calls| - 1])
  {
    if calls != [] {
      SortedNoneLate(l, calls[..|calls| - 1]);
    }
  }

  /** The limiter has either the pure bucket of the key, or none where the pure one had run out by the last
      purge. */
  ghost predicate Agrees(l: Limits, m: Memory, p: Option<Bucket>, key: string) {
    var b := Lookup(m.buckets, key);
    || b == p
    || (b.None? && p.Some? && m.nextCleanup.Some? && p.value.resetTime <= m.nextCleanup.value - CleanupInterval(l.window))
  }

  lemma AgreesStep(l: Limits, m: Memory, p: Option<Bucket>, key: string, call: Call)
    requires Agrees(l, m, p, key) && !Late(l, m, call)
    ensures Agrees(l, Step(l, m, call), if call.key == key then Some(Count(l, p, call.at)) else p, key)
    ensures call.key == key ==> (Answer(l, m, call) <==> Admits(l, p, call.at))
  {}

  lemma {:induction false} AlwaysAgrees(l: Limits, calls: seq<Call>, key: string)
    requires NoneLate(l, calls)
    ensures Agrees(l, Run(l, calls), Pure(l, calls, key), key)
  {
    if calls != [] {
      var n := |calls| - 1;
      AlwaysAgrees(l, calls[..n], key);
      AgreesStep(l, Run(l, calls[..n]), Pure(l, calls[..n], key), key, calls[n]);
    }
  }

  /** For every sequence of calls of which none is late, in particular for calls in time order, the limiter
      answers exactly as the never-purged counter of the calling key. */
  lemma PurgingIsInvisible(l: Limits, calls: seq<Call>)
    requires calls != [] && NoneLate(l, calls)
    ensures var n := |calls| - 1; Answer(l, Run(l, calls[..n]), calls[n]) <==> PureAnswer(l, calls)
  {
    var n := |calls| - 1;
    var key := calls[n].key;
    AlwaysAgrees(l, calls[..n], key);
    AgreesStep(l, Run(l, calls[..n]), Pure(l, calls[..n], key), key, calls[n]);
  }

  // ----- exactly when it shows

  /** The call falls into the bucket that the calls of its key have built up, but that bucket has been purged. */
  predicate Forgotten(l: Limits, calls: seq<Call>, call: Call) {
    var p := Pure(l, calls, call.key);
    p.Some? && call.at < p.value.resetTime && call.key !in Run(l, calls).buckets
  }

  /** This has happened to no call of the key. */
  predicate NoneForgotten(l: Limits, calls: seq<Call>, key: string) {
    calls == [] ||
    var n := |calls| - 1;
    NoneForgotten(l, calls[..n], key) && (calls[n].key == key ==> !Forgotten(l, calls[..n], calls[n]))
  }

  lemma {:induction false} Remembers(l: Limits, calls: seq<Call>, key: string)
    requires NoneForgotten(l, calls, key)
    ensures var b := Lookup(Run(l, calls).buckets, key); b.None? || b == Pure(l, calls, key)
  {
    if calls != [] {
      Remembers(l, calls[..|calls| - 1], key);
    }
  }

  /** As long as no call of a key was forgotten, the answer to its next call, at any time, differs from that of
      the counter if and only if the call is forgotten and its bucket was used up. */
  lemma PurgingShowsIff(l: Limits, calls: seq<Call>, call: Call)
    requires NoneForgotten(l, calls, call.key)
    ensures var p := Pure(l, calls, call.key);
            (Answer(l, Run(l, calls), call) != Admits(l, p, call.at)) <==>
            Forgotten(l, calls, call) && p.value.count >= l.maxRequests
  {
    Remembers(l, calls, call.key);
  }

  /** Without late calls nothing is forgotten. */
  lemma {:induction false} NoneLateNoneForgotten(l: Limits, calls: seq<Call>, key: string)
    requires NoneLate(l, calls)
    ensures NoneForgotten(l, calls, key)
  {
    if calls != [] {
      var n := |calls| - 1;
      NoneLateNoneForgotten(l, calls[..n], key);
      AlwaysAgrees(l, calls[..n], key);
    }
  }

  /** After calls of which none was late, a call is forgotten if and only if it is late and the last purge came
      after the end of the bucket it falls into. */
  lemma ForgottenIff(l: Limits, calls: seq<Call>, call: Call)
    requires l.window > 0 && NoneLate(l, calls)
    ensures var m, p := Run(l, calls), Pure(l, calls, call.key);
            Forgotten(l, calls, call) <==>
            Late(l, m, call) && p.Some? && call.at < p.value.resetTime <= m.nextCleanup.value - CleanupInterval(l.window)
  {
    AlwaysAgrees(l, calls, call.key);
    NoneLateNoneStale(l, calls);
    KeptIff(l, calls);
  }

  /** One call more. */
  lemma Snoc(l: Limits, calls: seq<Call>, call: Call, key: string, from: int) returns (r: seq<Call>)
    ensures r == calls + [call] && Run(l, r) == Step(l, Run(l, calls), call)
    ensures NoneLate(l, r) <==> NoneLate(l, calls) && !Late(l, Run(l, calls), call)
    ensures Pure(l, r, key) ==
            if call.key == key then Some(Count(l, Pure(l, calls, key), call.at)) else Pure(l, calls, key)
    ensures AllowedIn(l, r, key, from) ==
            AllowedIn(l, calls, key, from) +
            (if call.key == key && from <= call.at < from + l.window && Answer(l, Run(l, calls), call) then 1 else 0)
  {
    r := calls + [call];
    assert r[..|calls|] == calls;
  }

  /** Such calls there are: one request in the whole window, then a purge at the end of the window, then a
      second request that had read the clock before it.  It is let through, which breaks the bound on a window
      below. */
  lemma LateCallIsForgiven(window: int, key: string, other: string) returns (calls: seq<Call>, call: Call)
    requires 0 < window <= MINUTE && key != other
    ensures var l := Limits(1, window);
            && NoneLate(l, calls) && Answer(l, Run(l, calls), call) && !Admits(l, Pure(l, calls, call.key), call.at)
            && AllowedIn(l, calls + [call], key, 0) == 2 > 2 * Quota(l) - 1
  {
    var l := Limits(1, window);
    calls := Snoc(l, [], Call(key, 0), key, 0);
    assert Run(l, calls) == Memory(map[key := Bucket(1, window)], Some(window));
    calls := Snoc(l, calls, Call(other, window), key, 0);
    assert key !in Run(l, calls).buckets;
    call := Call(key, window - 1);
    var all := Snoc(l, calls, call, key, 0);
  }

  /** Calls of `key` allowed since its present bucket was opened, in the order in which they took the lock. */
  function Served(l: Limits, calls: seq<Call>, key: string): nat {
    if calls == [] then 0
    else
      var n := |calls| - 1;
      var m, before := Run(l, calls[..n]), Served(l, calls[..n], key);
      var b := Lookup(Cleaned(l, m, calls[n].at).buckets, key);
      if calls[n].key != key then before
      else if b.None? || b.value.resetTime <= calls[n].at then 1
      else before + (if Answer(l, m, calls[n]) then 1 else 0)
  }

  /** Late calls or not: no bucket ever lets through more than its quota. */
  lemma {:induction false} BucketBoundInAnyOrder(l: Limits, calls: seq<Call>, key: string)
    ensures Served(l, calls, key) <= Quota(l)
    ensures var b := Lookup(Run(l, calls).buckets, key); b.Some? ==> Served(l, calls, key) <= b.value.count
  {
    if calls != [] {
      BucketBoundInAnyOrder(l, calls[..|calls| - 1], key);
    }
  }

  // ----- and yet it purges: what has run out is kept no longer than one cleanup interval

  /** No bucket in memory had run out by the last purge. */
  ghost predicate Kept(l: Limits, m: Memory) {
    && (m.nextCleanup.None? ==> m.buckets == map[])
    && (m.nextCleanup.Some? ==>
          forall k :: k in m.buckets ==> m.nextCleanup.value - CleanupInterval(l.window) < m.buckets[k].resetTime)
  }

  /** The call is late by a whole window or more and opens a bucket, which has run out before it is filed. */
  predicate OpensStale(l: Limits, m: Memory, call: Call) {
    && m.nextCleanup.Some? && call.at + l.window <= m.nextCleanup.value - CleanupInterval(l.window)
    && call.key !in m.buckets
  }

  predicate NoneStale(l: Limits, calls: seq<Call>) {
    calls == [] ||
    var n := |calls| - 1;
    NoneStale(l, calls[..n]) && !OpensStale(l, Run(l, calls[..n]), calls[n])
  }

  lemma KeptStep(l: Limits, m: Memory, call: Call)
    requires l.window > 0 && Kept(l, m)
    ensures Kept(l, Step(l, m, call)) <==> !OpensStale(l, m, call)
  {
    var m' := Step(l, m, call);
    assert call.key in m'.buckets;
  }

  ghost predicate AlwaysKept(l: Limits, calls: seq<Call>) {
    calls == [] || (AlwaysKept(l, calls[..|calls| - 1]) && Kept(l, Run(l, calls)))
  }

  /** Nothing that had run out by the last purge is ever held if and only if no call was so late as to open a
      bucket that had. */
  lemma {:induction false} KeptIff(l: Limits, calls: seq<Call>)
    requires l.window > 0
    ensures AlwaysKept(l, calls) <==> NoneStale(l, calls)
    ensures AlwaysKept(l, calls) ==> Kept(l, Run(l, calls))
  {
    if calls != [] {
      var n := |calls| - 1;
      KeptIff(l, calls[..n]);
      if AlwaysKept(l, calls[..n]) {
        KeptStep(l, Run(l, calls[..n]), calls[n]);
      }
    }
  }

  lemma {:induction false} NoneLateNoneStale(l: Limits, calls: seq<Call>)
    requires l.window > 0 && NoneLate(l, calls)
    ensures NoneStale(l, calls)
  {
    if calls != [] {
      NoneLateNoneStale(l, calls[..|calls| - 1]);
    }
  }

  /** Then, at every time at which no purge is due, no bucket in memory ran out more than one cleanup interval
      ago. */
  lemma NoStaleBuckets(l: Limits, calls: seq<Call>, key: string, now: int)
    requires l.window > 0 && NoneStale(l, calls) && key in Run(l, calls).buckets && !CleanupDue(Run(l, calls), now)
    ensures now - CleanupInterval(l.window) < Run(l, calls).buckets[key].resetTime
  {
    KeptIff(l, calls);
  }

  /** A call that is late by ten windows leaves a bucket that is held on for most of an interval. */
  lemma LateCallLeavesStale(window: int, key: string, other: string) returns (calls: seq<Call>)
    requires 1 < window <= MINUTE && key != other
    ensures var l, m, now := Limits(1, window), Run(Limits(1, window), calls), 10 * window + 1;
            && calls == [Call(other, 10 * window), Call(key, 0), Call(other, now)]
            && key in m.buckets && !CleanupDue(m, now) && m.buckets[key].resetTime < now - CleanupInterval(window)
  {
    var l := Limits(1, window);
    calls := Snoc(l, [], Call(other, 10 * window), key, 0);
    calls := Snoc(l, calls, Call(key, 0), key, 0);
    calls := Snoc(l, calls, Call(other, 10 * window + 1), key, 0);
  }

  // ----- one key's answers depend on that key's calls only

  function Only(calls: seq<Call>, key: string): seq<Call> {
    if calls == [] then []
    else
      var n := |calls| - 1;
      Only(calls[..n], key) + (if calls[n].key == key then [calls[n]] else [])
  }

  lemma {:induction false} PureIgnoresOthers(l: Limits, calls: seq<Call>, key: string)
    ensures Pure(l, Only(calls, key), key) == Pure(l, calls, key)
  {
    if calls != [] {
      var n := |calls| - 1;
      PureIgnoresOthers(l, calls[..n], key);
      if calls[n].key == key {
        assert Only(calls, key)[..|Only(calls[..n], key)|] == Only(calls[..n], key);
      } else {
        assert Only(calls, key) == Only(calls[..n], key);
      }
    }
  }

  /** Two limiters that have seen the same calls of a key, and have forgotten none of them, give its next call,
      at any time, different answers if and only if its bucket is used up and just one of the two has purged it;
      whatever else each of them has seen. */
  lemma KeysInterfereIff(l: Limits, calls: seq<Call>, others: seq<Call>, call: Call)
    requires Only(calls, call.key) == Only(others, call.key)
    requires NoneForgotten(l, calls, call.key) && NoneForgotten(l, others, call.key)
    ensures Answer(l, Run(l, calls), call) != Answer(l, Run(l, others), call) <==>
            && Forgotten(l, calls, call) != Forgotten(l, others, call)
            && Pure(l, calls, call.key).Some? && Pure(l, calls, call.key).value.count >= l.maxRequests
  {
    PureIgnoresOthers(l, calls, call.key);
    PureIgnoresOthers(l, others, call.key);
    PurgingShowsIff(l, calls, call);
    PurgingShowsIff(l, others, call);
  }

  /** So without late calls they answer alike. */
  lemma KeysAreIndependent(l: Limits, calls: seq<Call>, others: seq<Call>, call: Call)
    requires NoneLate(l, calls + [call]) && NoneLate(l, others + [call])
    requires Only(calls, call.key) == Only(others, call.key)
    ensures Answer(l, Run(l, calls), call) <==> Answer(l, Run(l, others), call)
  {
    var c, o := calls + [call], others + [call];
    assert c[..|calls|] == calls && o[..|others|] == others;
    NoneLateNoneForgotten(l, c, call.key);
    NoneLateNoneForgotten(l, o, call.key);
    KeysInterfereIff(l, calls, others, call);
  }

  /** A late call may tell them apart. */
  lemma LateCallTellsKeysApart(window: int, key: string, other: string)
    requires 0 < window <= MINUTE && key != other
    ensures var l, calls, others := Limits(1, window), [Call(key, 0), Call(other, window)], [Call(key, 0)];
            var call := Call(key, window - 1);
            && Only(calls, key) == Only(others, key)
            && Answer(l, Run(l, calls), call) && !Answer(l, Run(l, others), call)
  {
    var l, calls, others := Limits(1, window), [Call(key, 0), Call(other, window)], [Call(key, 0)];
    var one := Snoc(l, [], Call(key, 0), key, 0);
    assert Run(l, others) == Memory(map[key := Bucket(1, window)], Some(window));
    var two := Snoc(l, one, Call(other, window), key, 0);
    assert calls[..1] == others;
  }

  // ----- how many calls a window lets through

  /** What one bucket can let through. */
  function Quota(l: Limits): int {
    if l.maxRequests < 1 then 1 else l.maxRequests
  }

  /** How many calls of `key` in the half-open interval `[from, from + window)` the limiter allowed. */
  function AllowedIn(l: Limits, calls: seq<Call>, key: string, from: int): nat {
    if calls == [] then 0
    else
      var n := |calls| - 1;
      AllowedIn(l, calls[..n], key, from) +
      (if calls[n].key == key && from <= calls[n].at < from + l.window && Answer(l, Run(l, calls[..n]), calls[n])
       then 1 else 0)
  }

  /** The most that the interval starting at `from` can have let through, given the current bucket. */
  function Ceiling(l: Limits, b: Option<Bucket>, from: int): int {
    if b.None? || b.value.resetTime <= from then 0
    else
      var start, used := b.value.resetTime - l.window, Min(b.value.count, Quota(l));
      if start < from then used - 1
      else if start == from then used
      else if start < from + l.window then Quota(l) - 1 + used
      else 2 * Quota(l) - 1
  }

  /** One more call of the key keeps the count under the ceiling. */
  lemma CeilingStep(l: Limits, b: Option<Bucket>, from: int, at: int)
    requires l.window > 0
    requires b.Some? ==> b.value.count >= 1 && b.value.resetTime - l.window <= at
    ensures var hit := from <= at < from + l.window && Admits(l, b, at);
            Ceiling(l, b, from) + (if hit then 1 else 0) <= Ceiling(l, Some(Count(l, b, at)), from)
  {}

  /** No call of the key is older than the opening of the bucket it falls into. */
  predicate NoneOlder(l: Limits, calls: seq<Call>, key: string) {
    calls == [] ||
    var n := |calls| - 1;
    var p := Pure(l, calls[..n], key);
    NoneOlder(l, calls[..n], key) && (calls[n].key == key && p.Some? ==> p.value.resetTime - l.window <= calls[n].at)
  }

  /** The calls of the key may overtake each other and other calls, but each finds its live bucket and is not
      older than it. */
  predicate Regular(l: Limits, calls: seq<Call>, key: string) {
    NoneForgotten(l, calls, key) && NoneOlder(l, calls, key)
  }

  /** Calls in time order do. */
  lemma {:induction false} SortedIsRegular(l: Limits, calls: seq<Call>, key: string)
    requires l.window > 0 && Nondecreasing(calls)
    ensures Regular(l, calls, key)
    ensures var p := Pure(l, calls, key); p.Some? ==> calls != [] && p.value.resetTime - l.window <= calls[|calls| - 1].at
  {
    SortedNoneLate(l, calls);
    NoneLateNoneForgotten(l, calls, key);
    if calls != [] {
      SortedIsRegular(l, calls[..|calls| - 1], key);
    }
  }

  lemma {:induction false} UnderCeiling(l: Limits, calls: seq<Call>, key: string, from: int)
    requires l.window > 0 && Regular(l, calls, key)
    ensures var b := Pure(l, calls, key);
            AllowedIn(l, calls, key, from) <= Ceiling(l, b, from) && (b.Some? ==> b.value.count >= 1)
  {
    if calls != [] {
      var n := |calls| - 1;
      UnderCeiling(l, calls[..n], key, from);
      if calls[n].key == key {
        PurgingShowsIff(l, calls[..n], calls[n]);
        CeilingStep(l, Pure(l, calls[..n], key), from, calls[n].at);
      }
    }
  }

  /** For regular calls, in particular for calls in time order, no half-open interval of one window's length lets
      through more than twice the quota less one. */
  lemma WindowBound(l: Limits, calls: seq<Call>, key: string, from: int)
    requires l.window > 0 && Regular(l, calls, key)
    ensures AllowedIn(l, calls, key, from) <= 2 * Quota(l) - 1
  {
    UnderCeiling(l, calls, key, from);
  }

  const SEC: int := 1_000_000_000

  /** Calls of one key, none of them late, of which the last is older than the bucket it falls into: four pass
      in one window, where the bound is three. */
  lemma OlderCallBreaksBound(key: string) returns (calls: seq<Call>)
    ensures var l := Limits(2, 100 * SEC);
            && NoneLate(l, calls) && (forall i :: 0 <= i < |calls| ==> calls[i].key == key)
            && AllowedIn(l, calls, key, 99 * SEC) == 4 > 2 * Quota(l) - 1
  {
    var l, from := Limits(2, 100 * SEC), 99 * SEC;
    calls := Snoc(l, [], Call(key, 0), key, from);
    assert Run(l, calls) == Memory(map[key := Bucket(1, 100 * SEC)], Some(60 * SEC));
    calls := Snoc(l, calls, Call(key, 99 * SEC), key, from);
    assert Run(l, calls) == Memory(map[key := Bucket(2, 100 * SEC)], Some(159 * SEC));
    calls := Snoc(l, calls, Call(key, 100 * SEC), key, from);
    assert Run(l, calls) == Memory(map[key := Bucket(1, 200 * SEC)], Some(159 * SEC));
    calls := Snoc(l, calls, Call(key, 100 * SEC), key, from);
    assert Run(l, calls) == Memory(map[key := Bucket(2, 200 * SEC)], Some(159 * SEC));
    calls := Snoc(l, calls, Call(key, 159 * SEC), key, from);
    assert Run(l, calls) == Memory(map[key := Bucket(3, 200 * SEC)], Some(219 * SEC));
    calls := Snoc(l, calls, Call(key, 200 * SEC), key, from);
    assert Run(l, calls) == Memory(map[key := Bucket(1, 300 * SEC)], Some(219 * SEC));
    calls := Snoc(l, calls, Call(key, 198 * SEC), key, from);
  }

  /** The `i`-th call opens a bucket for its key. */
  predicate OpensBucket(l: Limits, calls: seq<Call>, i: nat)
    requires i < |calls|
  {
    var b := Pure(l, calls[..i], calls[i].key);
    b.None? || b.value.resetTime <= calls[i].at
  }

  /** A bucket, from the call that opens it to the end of its window, lets through at most its quota. */
  lemma {:induction false} BucketBound(l: Limits, calls: seq<Call>, i: nat)
    requires l.window > 0 && i < |calls| && Regular(l, calls, calls[i].key) && OpensBucket(l, calls, i)
    ensures AllowedIn(l, calls, calls[i].key, calls[i].at) <= Quota(l)
    ensures var b := Pure(l, calls, calls[i].key);
            b.Some? && (b.value.resetTime == calls[i].at + l.window || b.value.resetTime >= calls[i].at + 2 * l.window)
  {
    var n, key, start := |calls| - 1, calls[i].key, calls[i].at;
    UnderCeiling(l, calls, key, start);
    if i < n {
      assert calls[..n][..i] == calls[..i];
      BucketBound(l, calls[..n], i);
    }
  }

  // ----- and that bound is met

  ghost predicate EndsBy(calls: seq<Call>, at: int) {
    Nondecreasing(calls) && (calls != [] ==> calls[|calls| - 1].at <= at)
  }

  /** What one call more of the key does to its bucket and to the count. */
  lemma OneMore(l: Limits, calls: seq<Call>, key: string, at: int, from: int)
    requires EndsBy(calls, at)
    ensures var r, b := calls + [Call(key, at)], Pure(l, calls, key);
            && EndsBy(r, at)
            && Pure(l, r, key) == Some(Count(l, b, at))
            && AllowedIn(l, r, key, from) ==
               AllowedIn(l, calls, key, from) + (if from <= at < from + l.window && Admits(l, b, at) then 1 else 0)
  {
    var r := calls + [Call(key, at)];
    assert r[..|calls|] == calls;
    SortedNoneLate(l, r);
    PurgingIsInvisible(l, r);
  }

  /** `k` more calls of one key at the same time, all of them inside the quota of its bucket. */
  lemma {:induction false} Burst(l: Limits, calls: seq<Call>, key: string, at: int, k: nat, from: int)
    returns (r: seq<Call>)
    requires EndsBy(calls, at) && from <= at < from + l.window
    requires var b := Pure(l, calls, key); b.Some? && at < b.value.resetTime && 1 <= b.value.count && b.value.count + k <= Quota(l)
    ensures EndsBy(r, at)
    ensures var b := Pure(l, calls, key).value; Pure(l, r, key) == Some(b.(count := b.count + k))
    ensures AllowedIn(l, r, key, from) == AllowedIn(l, calls, key, from) + k
  {
    r := calls;
    if k > 0 {
      r := Burst(l, calls, key, at, k - 1, from);
      OneMore(l, r, key, at, from);
      r := r + [Call(key, at)];
    }
  }

  /** One call at time `at`, which opens a bucket, and the rest of its quota at `late`. */
  lemma FullBucket(l: Limits, calls: seq<Call>, key: string, at: int, late: int, from: int)
    returns (r: seq<Call>)
    requires EndsBy(calls, at) && at <= late < at + l.window && from <= late < from + l.window
    requires var b := Pure(l, calls, key); b.None? || b.value.resetTime <= at
    ensures EndsBy(r, late)
    ensures Pure(l, r, key) == Some(Bucket(Quota(l), at + l.window))
    ensures AllowedIn(l, r, key, from) == AllowedIn(l, calls, key, from) + Quota(l) - (if from <= at then 0 else 1)
  {
    OneMore(l, calls, key, at, from);
    r := Burst(l, calls + [Call(key, at)], key, late, Quota(l) - 1, from);
  }

  /** For every limit and every window of at least two ticks there are calls that meet the bound:
      one at time zero, the rest of the quota just before the window ends, and a full quota after. */
  lemma WindowBoundIsMet(l: Limits, key: string) returns (calls: seq<Call>)
    requires l.window > 1
    ensures Nondecreasing(calls) && AllowedIn(l, calls, key, 1) == 2 * Quota(l) - 1
  {
    calls := FullBucket(l, [], key, 0, l.window - 1, 1);
    calls := FullBucket(l, calls, key, l.window, l.window, 1);
  }
}
