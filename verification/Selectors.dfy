/** Choosing a backend: the cyclic probe that round robin and affinity share, and the scan that the
    other selectors share.  Both ask `Available`, which changes the backend it asks. */
module Selectors {
  import opened Breaker
  import BreakerRuns
  import opened Wrappers

  /** The outcome of a selection; a backend is named by its position. */
  datatype Selection = NoBackend | NoValidBackend | Chosen(pos: nat)

  /** What the clock shows at each probe of one selection. */
  type Clock = nat -> int

  // ----- the cyclic probe

  /** The position `k` steps after `start` on a circle of `n` backends. */
  function Pos(n: nat, start: nat, k: nat): (p: nat)
    requires start < n && k <= n
    ensures p < n
  {
    if start + k < n then start + k else start + k - n
  }

  /** How many steps it takes from `start` to `p`. */
  function Distance(n: nat, start: nat, p: nat): (k: nat)
    requires start < n && p < n
    ensures k < n && Pos(n, start, k) == p
  {
    if p >= start then p - start else p - start + n
  }

  /** The first offset from `k` on whose backend answers yes. */
  function First(cs: seq<Circuit>, start: nat, clock: Clock, k: nat): (r: Option<nat>)
    requires start < |cs| && k <= |cs|
    ensures r.Some? ==> k <= r.value < |cs|
    decreases |cs| - k
  {
    if k == |cs| then None
    else if Answer(cs[Pos(|cs|, start, k)], clock(k)) then Some(k)
    else First(cs, start, clock, k + 1)
  }

  function Choose(cs: seq<Circuit>, start: nat, clock: Clock): (s: Selection)
    requires start < |cs|
    ensures s.Chosen? ==> s.pos < |cs|
  {
    match First(cs, start, clock, 0)
    case None => NoValidBackend
    case Some(k) => Chosen(Pos(|cs|, start, k))
  }

  /** The circuits after the probe. */
  function Probed(cs: seq<Circuit>, start: nat, clock: Clock): (r: seq<Circuit>)
    requires start < |cs|
    ensures |r| == |cs|
  {
    match First(cs, start, clock, 0)
    case None => cs
    case Some(k) => var j := Pos(|cs|, start, k); cs[j := Asked(cs[j], clock(k))]
  }

  /** Where round robin starts next. */
  function NextIndex(cs: seq<Circuit>, start: nat, clock: Clock): (next: nat)
    requires start < |cs|
    ensures next < |cs|
  {
    match First(cs, start, clock, 0)
    case None => start
    case Some(k) => Pos(|cs|, start, k + 1)
  }

  lemma {:induction false} FirstIsFirst(cs: seq<Circuit>, start: nat, clock: Clock, k: nat)
    requires start < |cs| && k <= |cs|
    ensures var r := First(cs, start, clock, k);
            && (r.Some? ==> Answer(cs[Pos(|cs|, start, r.value)], clock(r.value)))
            && forall d :: k <= d < (if r.Some? then r.value else |cs|) ==> !Answer(cs[Pos(|cs|, start, d)], clock(d))
    decreases |cs| - k
  {
    if k < |cs| && !Answer(cs[Pos(|cs|, start, k)], clock(k)) {
      FirstIsFirst(cs, start, clock, k + 1);
    }
  }

  /** One selection moves at most one breaker: the one it returns, from open to half-open.  If it
      returns none, nothing has moved. */
  lemma OneProbePerSelection(cs: seq<Circuit>, start: nat, clock: Clock, i: nat)
    requires start < |cs| && i < |cs|
    ensures var s, after := Choose(cs, start, clock), Probed(cs, start, clock);
            && (after[i] != cs[i] ==> s == Chosen(i) && cs[i].state == Open && after[i].state == HalfOpen)
            && (s == Chosen(i) && !cs[i].checked && cs[i].state == Open ==> after[i].state == HalfOpen)
  {
    FirstIsFirst(cs, start, clock, 0);
  }

  /** A selection returns the first backend around the circle that answers yes at its turn, and fails
      exactly when none does. */
  lemma ChoosesFirstAvailable(cs: seq<Circuit>, start: nat, clock: Clock)
    requires start < |cs|
    ensures var s := Choose(cs, start, clock);
            && (s == NoValidBackend <==> forall d :: 0 <= d < |cs| ==> !Answer(cs[Pos(|cs|, start, d)], clock(d)))
            && (s.Chosen? <==> exists k :: 0 <= k < |cs| && Answer(cs[Pos(|cs|, start, k)], clock(k)))
            && (s.Chosen? ==>
                  var k := Distance(|cs|, start, s.pos);
                  && Answer(cs[s.pos], clock(k))
                  && forall d :: 0 <= d < k ==> !Answer(cs[Pos(|cs|, start, d)], clock(d)))
  {
    FirstIsFirst(cs, start, clock, 0);
  }

  /** A key whose home answers yes stays at home, whatever the other backends do. */
  lemma {:induction false} HomeSticks(cs: seq<Circuit>, others: seq<Circuit>, home: nat, clock: Clock)
    requires |cs| == |others| && home < |cs| && cs[home] == others[home] && Answer(cs[home], clock(0))
    ensures Choose(cs, home, clock) == Choose(others, home, clock) == Chosen(home)
  {
    assert Pos(|cs|, home, 0) == home;
  }

  // ----- round robin is fair

  /** Every probe of backend `i` answers `up[i]`, and changes nothing. */
  ghost predicate Fixed(cs: seq<Circuit>, up: seq<bool>, clock: Clock) {
    && |up| == |cs|
    && forall i: nat, k: nat :: i < |cs| && k < |cs| ==> Answer(cs[i], clock(k)) == up[i] && Asked(cs[i], clock(k)) == cs[i]
  }

  /** The available positions met on a walk of `len` steps around the circle. */
  function Walk(up: seq<bool>, p: nat, len: nat): (w: seq<nat>)
    requires p < |up|
    decreases len
  {
    if len == 0 then []
    else (if up[p] then [p] else []) + Walk(up, Pos(|up|, p, 1), len - 1)
  }

  /** The available positions, in cyclic order from `start`. */
  function Cycle(up: seq<bool>, start: nat): seq<nat>
    requires start < |up|
  {
    Walk(up, start, |up|)
  }

  lemma {:induction false} WalkSplits(up: seq<bool>, p: nat, a: nat, b: nat)
    requires p < |up| && a <= |up|
    ensures Walk(up, p, a + b) == Walk(up, p, a) + Walk(up, Pos(|up|, p, a), b)
    decreases a
  {
    if a > 0 {
      WalkSplits(up, Pos(|up|, p, 1), a - 1, b);
    }
  }

  lemma WalkSkips(up: seq<bool>, p: nat, len: nat)
    requires p < |up| && !up[p] && len > 0
    ensures Walk(up, p, len) == Walk(up, Pos(|up|, p, 1), len - 1)
  {}

  lemma FixedAnswer(cs: seq<Circuit>, up: seq<bool>, clock: Clock, p: nat, k: nat)
    requires Fixed(cs, up, clock) && p < |cs| && k < |cs|
    ensures Answer(cs[p], clock(k)) == up[p]
  {}

  lemma {:induction false} FirstWalk(cs: seq<Circuit>, up: seq<bool>, start: nat, clock: Clock, k: nat)
    requires start < |cs| && k <= |cs| && Fixed(cs, up, clock)
    ensures var first := First(cs, start, clock, k);
            && (first.None? ==> Walk(up, Pos(|cs|, start, k), |cs| - k) == [])
            && (first.Some? ==> Walk(up, Pos(|cs|, start, k), first.value - k) == [] && up[Pos(|cs|, start, first.value)])
    decreases |cs| - k
  {
    if k < |cs| {
      var p := Pos(|cs|, start, k);
      FixedAnswer(cs, up, clock, p, k);
      if !up[p] {
        FirstWalk(cs, up, start, clock, k + 1);
        var first := First(cs, start, clock, k + 1);
        WalkSkips(up, p, if first.None? then |cs| - k else first.value - k);
      }
    }
  }

  /** A walk around the whole circle that meets nobody for `k` steps and then `j`. */
  lemma CycleRotates(up: seq<bool>, start: nat, k: nat)
    requires start < |up| && k < |up| && Walk(up, start, k) == [] && up[Pos(|up|, start, k)]
    ensures var c := Cycle(up, start);
            && c != [] && c[0] == Pos(|up|, start, k)
            && Cycle(up, Pos(|up|, start, k + 1)) == c[1..] + [c[0]]
  {
    var n, j, next := |up|, Pos(|up|, start, k), Pos(|up|, start, k + 1);
    var rest := Walk(up, next, n - k - 1);
    WalkSplits(up, start, k, n - k);
    assert Cycle(up, start) == [j] + rest;
    WalkSplits(up, next, n - k - 1, k + 1);
    WalkSplits(up, start, k, 1);
    assert Walk(up, j, 1) == [j] + Walk(up, next, 0);
    assert Cycle(up, next) == rest + [j];
  }

  /** One round-robin selection takes the head of the cycle and moves it to the end; with nobody
      available it fails, and the index ends where it began. */
  lemma SelectionRotates(cs: seq<Circuit>, up: seq<bool>, start: nat, clock: Clock)
    requires start < |cs| && Fixed(cs, up, clock)
    ensures var c := Cycle(up, start);
            && Probed(cs, start, clock) == cs
            && (c == [] ==> Choose(cs, start, clock) == NoValidBackend && NextIndex(cs, start, clock) == start)
            && (c != [] ==>
                  && Choose(cs, start, clock) == Chosen(c[0])
                  && Cycle(up, NextIndex(cs, start, clock)) == c[1..] + [c[0]])
  {
    FirstWalk(cs, up, start, clock, 0);
    var first := First(cs, start, clock, 0);
    if first.Some? {
      CycleRotates(up, start, first.value);
    }
  }

  /** The answers of consecutive round-robin selections, one clock for each. */
  function Rounds(cs: seq<Circuit>, start: nat, clocks: seq<Clock>): (r: seq<Selection>)
    requires start < |cs|
    ensures |r| == |clocks|
    decreases |clocks|
  {
    if clocks == [] then []
    else [Choose(cs, start, clocks[0])] +
         Rounds(Probed(cs, start, clocks[0]), NextIndex(cs, start, clocks[0]), clocks[1..])
  }

  /** The index after those selections. */
  function IndexAfter(cs: seq<Circuit>, start: nat, clocks: seq<Clock>): (next: nat)
    requires start < |cs|
    ensures next < |cs|
    decreases |clocks|
  {
    if clocks == [] then start
    else IndexAfter(Probed(cs, start, clocks[0]), NextIndex(cs, start, clocks[0]), clocks[1..])
  }

  ghost predicate AllFixed(cs: seq<Circuit>, up: seq<bool>, clocks: seq<Clock>) {
    |up| == |cs| && forall r :: 0 <= r < |clocks| ==> Fixed(cs, up, clocks[r])
  }

  lemma RotationsCompose(c: seq<nat>, m: nat)
    requires 0 < m <= |c|
    ensures var d := c[1..] + [c[0]];
            d[m - 1..] + d[..m - 1] == c[m..] + c[..m] && forall r :: 1 <= r < m ==> d[r - 1] == c[r]
  {}

  /** From any index, any number of consecutive selections up to one full turn read off the cycle in
      order; a full turn therefore ends on the cycle it began with. */
  lemma {:induction false} RoundRobinCycles(cs: seq<Circuit>, up: seq<bool>, start: nat, clocks: seq<Clock>)
    requires start < |cs| && AllFixed(cs, up, clocks) && |clocks| <= |Cycle(up, start)|
    ensures var c, m := Cycle(up, start), |clocks|;
            && (forall r :: 0 <= r < m ==> Rounds(cs, start, clocks)[r] == Chosen(c[r]))
            && Cycle(up, IndexAfter(cs, start, clocks)) == c[m..] + c[..m]
    decreases |clocks|
  {
    var c, m := Cycle(up, start), |clocks|;
    if m == 0 {
    } else {
      assert Fixed(cs, up, clocks[0]);
      SelectionRotates(cs, up, start, clocks[0]);
      var next := NextIndex(cs, start, clocks[0]);
      RotationsCompose(c, m);
      RoundRobinCycles(cs, up, next, clocks[1..]);
      forall r | 0 <= r < m ensures Rounds(cs, start, clocks)[r] == Chosen(c[r]) {
        if r > 0 {
          assert Rounds(cs, next, clocks[1..])[r - 1] == Chosen(Cycle(up, next)[r - 1]);
        }
      }
    }
  }

  // ----- the cycle holds every available backend once

  lemma {:induction false} WalkMembers(up: seq<bool>, p: nat, len: nat, j: nat)
    requires p < |up| && len <= |up|
    ensures j in Walk(up, p, len) <==> j < |up| && up[j] && Distance(|up|, p, j) < len
    decreases len
  {
    if len > 0 {
      WalkMembers(up, Pos(|up|, p, 1), len - 1, j);
    }
  }

  lemma {:induction false} WalkDistinct(up: seq<bool>, p: nat, len: nat)
    requires p < |up| && len <= |up|
    ensures forall x, y :: 0 <= x < y < |Walk(up, p, len)| ==> Walk(up, p, len)[x] != Walk(up, p, len)[y]
    decreases len
  {
    if len > 0 {
      var q := Pos(|up|, p, 1);
      WalkDistinct(up, q, len - 1);
      WalkMembers(up, q, len - 1, p);
    }
  }

  /** Fairness: with a fixed set of available backends, one full turn of selections from any index
      returns each available backend exactly once and no other. */
  lemma {:induction false} RoundRobinIsFair(cs: seq<Circuit>, up: seq<bool>, start: nat, clocks: seq<Clock>, j: nat)
    requires start < |cs| && AllFixed(cs, up, clocks) && |clocks| == |Cycle(up, start)| && j < |cs|
    ensures up[j] <==> exists r :: 0 <= r < |clocks| && Rounds(cs, start, clocks)[r] == Chosen(j)
    ensures forall r, q :: 0 <= r < q < |clocks| ==> Rounds(cs, start, clocks)[r] != Rounds(cs, start, clocks)[q]
  {
    var c := Cycle(up, start);
    RoundRobinCycles(cs, up, start, clocks);
    WalkMembers(up, start, |up|, j);
    WalkDistinct(up, start, |up|);
    if up[j] {
      var r :| 0 <= r < |c| && c[r] == j;
      assert Rounds(cs, start, clocks)[r] == Chosen(j);
    }
  }

  ghost function UpSet(up: seq<bool>): set<nat> {
    set j | 0 <= j < |up| && up[j]
  }

  ghost function Elements(s: seq<nat>): set<nat> {
    set j | j in s
  }

  lemma {:induction false} DistinctCount(s: seq<nat>)
    requires forall x, y :: 0 <= x < y < |s| ==> s[x] != s[y]
    ensures |Elements(s)| == |s|
  {
    if s == [] {
      assert Elements(s) == {};
    } else {
      var rest := s[1..];
      DistinctCount(rest);
      assert s == [s[0]] + rest && s[0] !in rest;
      assert Elements(s) == Elements(rest) + {s[0]};
    }
  }

  /** A full turn is as many selections as there are available backends. */
  lemma TurnLength(up: seq<bool>, start: nat)
    requires start < |up|
    ensures |Cycle(up, start)| == |UpSet(up)|
  {
    var c := Cycle(up, start);
    forall j: nat ensures j in c <==> j < |up| && up[j] {
      WalkMembers(up, start, |up|, j);
    }
    WalkDistinct(up, start, |up|);
    DistinctCount(c);
    assert UpSet(up) == Elements(c);
  }

  // ----- the scan

  /** Those of the first `n` positions that answer yes, each asked once. */
  function Scanned(cs: seq<Circuit>, clock: Clock, n: nat): seq<nat>
    requires n <= |cs|
  {
    if n == 0 then []
    else Scanned(cs, clock, n - 1) + (if Answer(cs[n - 1], clock(n - 1)) then [n - 1] else [])
  }

  /** What `available` returns. */
  function Scan(cs: seq<Circuit>, clock: Clock): seq<nat> {
    Scanned(cs, clock, |cs|)
  }

  lemma {:induction false} ScannedMembers(cs: seq<Circuit>, clock: Clock, n: nat, j: nat)
    requires n <= |cs|
    ensures j in Scanned(cs, clock, n) <==> j < n && Answer(cs[j], clock(j))
  {
    if n > 0 {
      ScannedMembers(cs, clock, n - 1, j);
    }
  }

  /** A scan takes the probe of every backend that is open and due, though only one backend is used:
      each of them is half-open from then on and, until a request on it ends, refuses every later
      caller at every time. */
  lemma ScanStrandsTheOthers(cs: seq<Circuit>, clock: Clock, i: nat, later: seq<Event>, now: int)
    requires i < |cs| && !cs[i].checked && cs[i].state == Open && cs[i].retryAfter <= clock(i)
    requires BreakerRuns.OnlyAsks(later)
    ensures i in Scan(cs, clock)
    ensures var c := Asked(cs[i], clock(i)); c.state == HalfOpen && !Answer(BreakerRuns.Run(c, later), now)
  {
    ScannedMembers(cs, clock, |cs|, i);
    BreakerRuns.HalfOpenIsStranded(Asked(cs[i], clock(i)), later, now);
  }

  // ----- the code

  lemma FirstHere(cs: seq<Circuit>, start: nat, clock: Clock, i: nat)
    requires start < |cs| && i < |cs| && First(cs, start, clock, 0) == First(cs, start, clock, i)
    ensures var j := Pos(|cs|, start, i);
            if Answer(cs[j], clock(i)) then
              && Choose(cs, start, clock) == Chosen(j)
              && Probed(cs, start, clock) == cs[j := Asked(cs[j], clock(i))]
              && NextIndex(cs, start, clock) == Pos(|cs|, start, i + 1)
            else First(cs, start, clock, 0) == First(cs, start, clock, i + 1)
  {}

  ghost predicate Distinct(bs: seq<Backend>) {
    forall i, j :: 0 <= i < j < |bs| ==> bs[i] != bs[j]
  }

  function Views(bs: seq<Backend>): (cs: seq<Circuit>)
    reads bs
    ensures |cs| == |bs| && forall i :: 0 <= i < |bs| ==> cs[i] == bs[i].View()
  {
    seq(|bs|, i requires 0 <= i < |bs| reads bs => bs[i].View())
  }

  /** The backends are in the given states. */
  ghost predicate Shows(bs: seq<Backend>, cs: seq<Circuit>)
    reads bs
  {
    |cs| == |bs| && forall k :: 0 <= k < |bs| ==> bs[k].View() == cs[k]
  }

  /** One question to one of several backends. */
  method AskOne(bs: seq<Backend>, j: nat, now: int, ghost cs: seq<Circuit>) returns (ok: bool)
    requires Distinct(bs) && j < |bs| && Shows(bs, cs)
    modifies bs[j]
    ensures ok == Answer(cs[j], now)
    ensures Shows(bs, cs[j := Asked(cs[j], now)])
    ensures !ok ==> Shows(bs, cs)
    ensures bs[j].activeConnections == old(bs[j].activeConnections)
  {
    ok := bs[j].Available(now);
  }

  class RoundRobin {
    const backends: seq<Backend>
    var index: nat

    ghost predicate Valid()
      reads this
    {
      Distinct(backends) && (backends == [] || index < |backends|)
    }

    constructor (bs: seq<Backend>)
      requires Distinct(bs)
      ensures Valid() && backends == bs && index == 0
    {
      backends, index := bs, 0;
    }

    method Select(clock: Clock) returns (s: Selection)
      requires Valid()
      modifies this`index, backends
      ensures Valid()
      ensures backends == [] ==> s == NoBackend && index == old(index)
      ensures backends != [] ==>
                && s == Choose(old(Views(backends)), old(index), clock)
                && index == NextIndex(old(Views(backends)), old(index), clock)
                && forall k :: 0 <= k < |backends| ==>
                     backends[k].View() == Probed(old(Views(backends)), old(index), clock)[k]
    {
      if |backends| == 0 {
        return NoBackend;
      }
      ghost var cs, start := Views(backends), index;
      for i := 0 to |backends|
        invariant index == Pos(|backends|, start, i)
        invariant Shows(backends, cs)
        invariant First(cs, start, clock, 0) == First(cs, start, clock, i)
      {
        FirstHere(cs, start, clock, i);
        var here := index;
        index := index + 1;
        if index >= |backends| {
          index := 0;
        }
        var ok := AskOne(backends, here, clock(i), cs);
        if ok {
          return Chosen(here);
        }
      }
      return NoValidBackend;
    }
  }

  /** `available`: asks every backend in turn. */
  method Available(bs: seq<Backend>, clock: Clock) returns (out: seq<nat>)
    requires Distinct(bs)
    modifies bs
    ensures out == Scan(old(Views(bs)), clock)
    ensures forall i :: 0 <= i < |bs| ==> bs[i].View() == Asked(old(bs[i].View()), clock(i))
    ensures forall i :: 0 <= i < |bs| ==> bs[i].activeConnections == old(bs[i].activeConnections)
  {
    out := [];
    ghost var cs, ds := Views(bs), Views(bs);
    for i := 0 to |bs|
      invariant out == Scanned(cs, clock, i)
      invariant Shows(bs, ds)
      invariant forall k :: 0 <= k < |bs| ==> ds[k] == if k < i then Asked(cs[k], clock(k)) else cs[k]
      invariant forall k :: 0 <= k < |bs| ==> bs[k].activeConnections == old(bs[k].activeConnections)
    {
      var ok := AskOne(bs, i, clock(i), ds);
      ds := ds[i := Asked(ds[i], clock(i))];
      if ok {
        out := out + [i];
      }
    }
  }

  const MAX_INT64: int := 0x7fff_ffff_ffff_ffff

  /** The argmin loop: all positions of `open` with the least load, in order. */
  method Lightest(open: seq<nat>, loads: seq<int>) returns (candidates: seq<nat>)
    requires forall i :: i in open ==> i < |loads| && loads[i] <= MAX_INT64
    ensures open != [] ==> candidates != []
    ensures forall c :: c in candidates <==> c in open && forall i :: i in open ==> loads[c] <= loads[i]
  {
    var bestLoad := MAX_INT64;
    candidates := [];
    for k := 0 to |open|
      invariant if k == 0 then bestLoad == MAX_INT64 else candidates != []
      invariant forall i :: i in open[..k] ==> i in open
      invariant forall c :: c in candidates <==> c in open[..k] && loads[c] == bestLoad
      invariant forall i :: i in open[..k] ==> bestLoad <= loads[i]
    {
      assert open[..k + 1] == open[..k] + [open[k]];
      assert open[k] in open;
      var load := loads[open[k]];
      if load < bestLoad {
        bestLoad := load;
        candidates := [open[k]];
      } else if load == bestLoad {
        candidates := candidates + [open[k]];
      }
    }
    assert open[..|open|] == open;
    if open != [] {
      assert candidates[0] in candidates;
    }
  }

  function Loads(bs: seq<Backend>): (loads: seq<int>)
    reads bs
    ensures |loads| == |bs| && forall i :: 0 <= i < |bs| ==> loads[i] == bs[i].activeConnections
  {
    seq(|bs|, i requires 0 <= i < |bs| reads bs => bs[i].activeConnections)
  }

  /** `LeastConnections.Select`; `pick` is the random number drawn at the end. */
  method LeastConnections(bs: seq<Backend>, clock: Clock, pick: nat) returns (s: Selection)
    requires Distinct(bs) && forall i :: 0 <= i < |bs| ==> bs[i].activeConnections <= MAX_INT64
    modifies bs
    ensures bs == [] <==> s == NoBackend
    ensures forall i :: 0 <= i < |bs| ==> bs[i].View() == Asked(old(bs[i].View()), clock(i))
    ensures s == NoValidBackend ==> Scan(old(Views(bs)), clock) == []
    ensures s.Chosen? ==>
              && s.pos < |bs| && s.pos in Scan(old(Views(bs)), clock)
              && forall i :: i in Scan(old(Views(bs)), clock) ==> i < |bs| && bs[s.pos].activeConnections <= bs[i].activeConnections
  {
    if |bs| == 0 {
      return NoBackend;
    }
    ghost var cs := Views(bs);
    var open := Available(bs, clock);
    if |open| == 0 {
      return NoValidBackend;
    }
    forall i | i in open ensures i < |bs| {
      ScannedMembers(cs, clock, |cs|, i);
    }
    var candidates := Lightest(open, Loads(bs));
    s := Chosen(candidates[pick % |candidates|]);
    assert s.pos in candidates;
  }
}
