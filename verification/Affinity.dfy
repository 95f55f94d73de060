/** Affinity: from a request to its home backend, and from there around the circle. */
module Affinity {
  import opened Breaker
  import opened Decimal
  import opened Selectors
  import opened Wrappers

  // ----- hashIndex, with the width of `int` as a parameter

  datatype Width = W32 | W64

  const TWO_31: int := 0x8000_0000
  const TWO_32: int := 0x1_0000_0000

  /** FNV-1a, as `hash/fnv` computes it. */
  function Fnv1a(key: seq<bv8>): bv32 {
    if key == [] then 2166136261
    else (Fnv1a(key[..|key| - 1]) ^ (key[|key| - 1] as bv32)) * 16777619
  }

  function HashOf(key: seq<bv8>): (h: int)
    ensures 0 <= h < TWO_32
  {
    Fnv1a(key) as int
  }

  /** `int(h)` for an unsigned 32-bit `h`: at 32 bits the upper half turns negative. */
  function ToInt(h: int, w: Width): int {
    if w == W32 && h >= TWO_31 then h - TWO_32 else h
  }

  /** Go's remainder takes the sign of the dividend. */
  function GoMod(a: int, n: int): int
    requires n > 0
  {
    if a >= 0 then a % n else -((-a) % n)
  }

  function HashIndex(h: int, n: int, w: Width): int
    requires n > 0
  {
    if n == 1 then 0 else GoMod(ToInt(h, w), n)
  }

  /** The home index is usable for every key when `int` has 64 bits; at 32 bits exactly when there is one
      backend, or the hash is in the lower half, or its complement is a multiple of the backends. */
  lemma HashIndexInRange(h: int, n: int, w: Width)
    requires 0 <= h < TWO_32 && n > 0
    ensures -n < HashIndex(h, n, w) < n
    ensures 0 <= HashIndex(h, n, w) <==> n == 1 || w == W64 || h < TWO_31 || (TWO_32 - h) % n == 0
  {}

  const LETTER_B: seq<bv8> := [98]
  const LETTER_C: seq<bv8> := [99]

  lemma LetterHashes()
    ensures HashOf(LETTER_B) == TWO_32 - 418632219 && HashOf(LETTER_C) == TWO_32 - 435409838
  {
    assert Fnv1a([]) == 2166136261;
    assert Fnv1a([98]) == 3876335077;
    assert Fnv1a([99]) == 3859557458;
  }

  lemma OnlyOneDividesBoth(n: int)
    requires n > 0 && 418632219 % n == 0 && 435409838 % n == 0
    ensures n == 1
  {
    var p, q := 418632219 / n, 435409838 / n;
    var k := 85906889 * q - 89349799 * p;
    assert n * k == 85906889 * (n * q) - 89349799 * (n * p) == 1;
  }

  // ----- the index that a response carries back

  const PREFIX: string := "__gorp_backend_index:"

  function Bound(w: Width): int {
    match w case W32 => TWO_31 case W64 => 0x8000_0000_0000_0000
  }

  predicate AllDigits(s: string) {
    s != [] && forall i :: 0 <= i < |s| ==> IsDigit(s[i])
  }

  /** `strconv.Atoi`: an optional sign, then at least one digit, in the range of `int`. */
  function Atoi(s: string, w: Width): Option<int> {
    var signed := s != [] && (s[0] == '+' || s[0] == '-');
    var digits := if signed then s[1..] else s;
    if !AllDigits(digits) then None
    else
      var v := if signed && s[0] == '-' then -Digits(digits) else Digits(digits);
      if -Bound(w) <= v < Bound(w) then Some(v) else None
  }

  function BackendAffinityKey(i: nat): string {
    PREFIX + Itoa(i)
  }

  /** The `backendIndex` closure: the index in a header value, if it names one of `n` backends. */
  function BackendIndex(value: string, n: nat, w: Width): (r: Option<nat>)
    ensures r.Some? ==> r.value < n
  {
    if !(PREFIX <= value) then None
    else match Atoi(value[|PREFIX|..], w)
      case None => None
      case Some(i) => if 0 <= i < n then Some(i) else None
  }

  /** A request that carries the key of backend `i` has home `i`, for every backend there is; a key past
      the last backend names none. */
  lemma KeyLeadsHome(i: nat, n: nat, w: Width)
    requires n <= Bound(w)
    ensures BackendIndex(BackendAffinityKey(i), n, w) == if i < n then Some(i) else None
  {
    var s := Itoa(i);
    assert BackendAffinityKey(i)[|PREFIX|..] == s;
    DigitsOfItoa(i);
    assert IsDigit(s[0]);
  }

  /** A decimal number, perhaps with a sign. */
  predicate Signed(s: string, digits: string, v: int) {
    AllDigits(digits) &&
    (((s == digits || s == "+" + digits) && v == Digits(digits)) || (s == "-" + digits && v == -Digits(digits)))
  }

  lemma AtoiReads(s: string, w: Width) returns (digits: string)
    requires Atoi(s, w).Some?
    ensures Signed(s, digits, Atoi(s, w).value) && -Bound(w) <= Atoi(s, w).value < Bound(w)
  {
    var signed := s != [] && (s[0] == '+' || s[0] == '-');
    digits := if signed then s[1..] else s;
    if signed {
      assert s == (if s[0] == '+' then "+" else "-") + digits;
    }
  }

  lemma AtoiWritten(s: string, digits: string, v: int, w: Width)
    requires Signed(s, digits, v) && -Bound(w) <= v < Bound(w)
    ensures Atoi(s, w) == Some(v)
  {
    assert IsDigit(digits[0]);
    if s != digits {
      assert s[1..] == digits;
    }
  }

  /** A header value names backend `i` exactly when it is the prefix and a decimal number, perhaps with a sign,
      that is `i`, and there is such a backend. */
  lemma NamesBackendIff(value: string, n: nat, w: Width, i: nat)
    requires n <= Bound(w)
    ensures BackendIndex(value, n, w) == Some(i) <==>
            i < n && exists s, digits :: value == "__gorp_backend_index:" + s && Signed(s, digits, i)
  {
    if BackendIndex(value, n, w) == Some(i) {
      var s := value[|PREFIX|..];
      assert value == "__gorp_backend_index:" + s;
      var digits := AtoiReads(s, w);
    }
    if s, digits :| value == "__gorp_backend_index:" + s && Signed(s, digits, i) {
      assert value[|PREFIX|..] == s;
      if i < n {
        AtoiWritten(s, digits, i, w);
      }
    }
  }

  // ----- Select

  /** The home of a request: the index its header names, or else the hash of its key. */
  function Home(header: Option<string>, hash: int, n: nat, w: Width): int
    requires n > 0
  {
    var direct := if header.None? then None else BackendIndex(header.value, n, w);
    if direct.Some? then direct.value else HashIndex(hash, n, w)
  }

  /** The key of a backend leads home, whatever the hash. */
  lemma HomeOfKey(i: nat, n: nat, w: Width, hash: int)
    requires i < n <= Bound(w)
    ensures BackendAffinityKey(i) == "__gorp_backend_index:" + Itoa(i)
    ensures Home(Some(BackendAffinityKey(i)), hash, n, w) == i
  {
    KeyLeadsHome(i, n, w);
  }

  /** Any other request goes by its hash: the remainder at 64 bits, and at 32 bits with the sign of the hash. */
  lemma HomeByHash(header: Option<string>, hash: int, n: nat)
    requires 0 <= hash < 0x1_0000_0000 && n > 0
    ensures header.None? || BackendIndex(header.value, n, W64).None? ==> Home(header, hash, n, W64) == hash % n
    ensures header.None? || BackendIndex(header.value, n, W32).None? ==>
              Home(header, hash, n, W32) == if hash < 0x8000_0000 then hash % n else -((0x1_0000_0000 - hash) % n)
  {
    if n == 1 {
      assert hash % 1 == 0 && (0x1_0000_0000 - hash) % 1 == 0;
    }
  }

  /** What `Select` does with a home index; a negative one is a run-time panic at the first probe. */
  datatype Outcome = Panics | Selected(s: Selection)

  lemma WrapOnce(a: int, n: int)
    requires 0 < n <= a < 2 * n
    ensures a % n == a - n
  {
    assert a / n == 1;
  }

  lemma NoWrap(a: int, n: int)
    requires 0 <= a < n
    ensures a % n == a
  {
    assert a / n == 0;
  }

  /** The remainder in the probe only ever wraps around once. */
  lemma WrapIsPos(n: int, start: int, k: nat)
    requires 0 < n && -n < start < n && k < n
    ensures start >= 0 ==> GoMod(start + k, n) == Pos(n, start, k)
    ensures start < 0 && k == 0 ==> GoMod(start + k, n) == start
  {
    if start < 0 {
      NoWrap(-start, n);
    } else if start + k < n {
      NoWrap(start + k, n);
    } else {
      WrapOnce(start + k, n);
    }
  }

  /** The probing loop of `Select`, from a home index. */
  method Probe(backends: seq<Backend>, index: int, clock: Clock) returns (r: Outcome)
    requires Distinct(backends) && -|backends| < index < |backends|
    modifies backends
    ensures index < 0 ==> r == Panics && forall k :: 0 <= k < |backends| ==> backends[k].View() == old(backends[k].View())
    ensures index >= 0 ==>
              && r == Selected(Choose(old(Views(backends)), index, clock))
              && forall k :: 0 <= k < |backends| ==>
                   backends[k].View() == Probed(old(Views(backends)), index, clock)[k]
  {
    var n := |backends|;
    ghost var cs := Views(backends);
    for offset := 0 to n
      invariant index < 0 ==> offset == 0
      invariant Shows(backends, cs)
      invariant 0 <= index ==> First(cs, index, clock, 0) == First(cs, index, clock, offset)
    {
      WrapIsPos(n, index, offset);
      var at := GoMod(index + offset, n);
      if at < 0 {
        return Panics;
      }
      FirstHere(cs, index, clock, offset);
      var ok := AskOne(backends, at, clock(offset), cs);
      if ok {
        return Selected(Chosen(at));
      }
    }
    return Selected(NoValidBackend);
  }

  method Select(backends: seq<Backend>, header: Option<string>, key: seq<bv8>, w: Width, clock: Clock)
    returns (r: Outcome)
    requires Distinct(backends)
    modifies backends
    ensures backends == [] ==> r == Selected(NoBackend)
    ensures backends != [] ==>
              var home, cs := Home(header, HashOf(key), |backends|, w), old(Views(backends));
              && (home < 0 ==> r == Panics && forall k :: 0 <= k < |backends| ==> backends[k].View() == cs[k])
              && (home >= 0 ==>
                    && home < |backends|
                    && r == Selected(Choose(cs, home, clock))
                    && forall k :: 0 <= k < |backends| ==> backends[k].View() == Probed(cs, home, clock)[k])
    // A request that carries the key of an available backend gets it.
    ensures |backends| <= Bound(w) ==>
              forall i :: 0 <= i < |backends| && header == Some(BackendAffinityKey(i)) ==>
                old(Answer(backends[i].View(), clock(0))) ==> r == Selected(Chosen(i))
  {
    var n := |backends|;
    ghost var before := Views(backends);
    forall i: nat | i < n <= Bound(w) && header == Some(BackendAffinityKey(i)) && Answer(before[i], clock(0))
      ensures Home(header, HashOf(key), n, w) == i && Choose(before, i, clock) == Chosen(i)
    {
      HomeOfKey(i, n, w, HashOf(key));
      HomeSticks(before, before, i, clock);
    }
    if n == 0 {
      return Selected(NoBackend);
    }
    var direct := if header.None? then None else BackendIndex(header.value, n, w);
    var index: int;
    if direct.Some? {
      index := direct.value;
    } else {
      index := HashIndex(HashOf(key), n, w);
      HashIndexInRange(HashOf(key), n, w);
    }
    r := Probe(backends, index, clock);
  }

  /** A request is never dropped by a panic exactly when its header names a backend or its hash is usable. */
  lemma NeverPanicsIff(header: Option<string>, hash: int, n: nat, w: Width)
    requires 0 <= hash < TWO_32 && n > 0
    ensures 0 <= Home(header, hash, n, w) <==>
            || (header.Some? && BackendIndex(header.value, n, w).Some?)
            || n == 1 || w == W64 || hash < TWO_31 || (TWO_32 - hash) % n == 0
  {
    HashIndexInRange(hash, n, w);
  }

  /** A one-letter key that `n` backends cannot place at 32 bits. */
  function BadKey(n: nat): seq<bv8>
    requires n > 1
  {
    if 418632219 % n != 0 then LETTER_B else LETTER_C
  }

  /** At 32 bits no pool of two or more backends is safe, at 64 bits every pool is. */
  lemma EveryPoolHasABadKey(n: nat, key: seq<bv8>)
    requires n > 1
    ensures Home(None, HashOf(BadKey(n)), n, W32) < 0 <= Home(None, HashOf(key), n, W64)
  {
    LetterHashes();
    if 418632219 % n == 0 && 435409838 % n == 0 {
      OnlyOneDividesBoth(n);
    }
    NeverPanicsIff(None, HashOf(BadKey(n)), n, W32);
    NeverPanicsIff(None, HashOf(key), n, W64);
  }

  /** `Select` panics on that cookie value, in whatever state the backends are. */
  method PanicsAt32Bits(backends: seq<Backend>, clock: Clock) returns (r: Outcome)
    requires Distinct(backends) && |backends| > 1
    modifies backends
    ensures r == Panics
  {
    EveryPoolHasABadKey(|backends|, []);
    r := Select(backends, None, BadKey(|backends|), W32, clock);
  }
}
