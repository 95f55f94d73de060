/** The header part of an AWS Signature Version 4 request: the canonical header block, and the list of signed
    headers that must name exactly the lines of that block. */
module SigHeaders {
  import opened Bytes
  import opened Sorting

  /** A header map as Go keeps it: the keys may differ in case only. */
  type Headers = map<Str, seq<Str>>

  function LowerByte(b: Byte): Byte {
    if 65 <= b <= 90 then b + 32 else b
  }

  function Lower(s: Str): Str {
    Map(LowerByte, s)
  }

  function Ascii(s: string): Str {
    seq(|s|, i requires 0 <= i < |s| => if s[i] as int < 256 then s[i] as int else 0)
  }

  const HOST: Str := Ascii("host")
  const COLON: Byte := 58
  const COMMA: Byte := 44
  const SEMICOLON: Byte := 59
  const NEWLINE: Byte := 10

  predicate IsSigned(name: Str) {
    name != Ascii("authorization") && name != HOST && name != Ascii("forwarded") && !(Ascii("x-forwarded-") <= name)
  }

  /** The lower-case names that go into the signature. */
  ghost function Names(h: Headers): set<Str> {
    NamesOf(h.Keys)
  }

  ghost function NamesOf(keys: set<Str>): set<Str> {
    {HOST} + set k | k in keys && IsSigned(Lower(k)) :: Lower(k)
  }

  lemma NamesOfNext(keys: set<Str>, k: Str)
    ensures NamesOf(keys + {k}) == NamesOf(keys) + (if IsSigned(Lower(k)) then {Lower(k)} else {})
  {}

  /** The sequence holds the members of the set, each once, in byte order. */
  ghost predicate Lists(names: seq<Str>, s: set<Str>) {
    && Sorted(Leq, names)
    && (forall n :: n in names <==> n in s)
    && (forall i, j :: 0 <= i < j < |names| ==> names[i] != names[j])
  }

  lemma LeastListed(b: seq<Str>, s: set<Str>, x: Str)
    requires Lists(b, s) && x in s
    ensures b != [] && Leq(b[0], x)
  {
    assert x in b;
    var i :| 0 <= i < |b| && b[i] == x;
    LeqTotal(x, x);
  }

  lemma HasMember(b: seq<Str>)
    requires b != []
    ensures exists x :: x in b
  {
    assert b[0] in b;
  }

  /** A set has one listing. */
  lemma {:induction false} ListsUnique(a: seq<Str>, b: seq<Str>, s: set<Str>)
    requires Lists(a, s) && Lists(b, s)
    ensures a == b
    decreases |a|
  {
    if a == [] {
      if b != [] {
        HasMember(b);
      }
    } else {
      assert a[0] in a;
      LeastListed(b, s, a[0]);
      assert b[0] in b;
      LeastListed(a, s, b[0]);
      LeqAntisymmetric(a[0], b[0]);
      ListsTail(a, s);
      ListsTail(b, s);
      ListsUnique(a[1..], b[1..], s - {a[0]});
      assert a == [a[0]] + a[1..] && b == [b[0]] + b[1..];
    }
  }

  lemma ListsTail(a: seq<Str>, s: set<Str>)
    requires Lists(a, s) && a != []
    ensures Lists(a[1..], s - {a[0]})
  {
    SortedTail(Leq, a);
    assert a == [a[0]] + a[1..];
    assert a[0] !in a[1..];
  }

  /** What is signed: the host, and every header of the request, in lower case, except the authorization, the
      host itself and the forwarding headers. */
  lemma {:induction false} NamesAreRight(h: Headers, names: seq<Str>, n: Str)
    requires Lists(names, Names(h))
    ensures n in names <==>
            || n == Ascii("host")
            || (exists k :: k in h && Lower(k) == n
                  && n != Ascii("authorization") && n != Ascii("forwarded") && !(Ascii("x-forwarded-") <= n))
    ensures Ascii("authorization") !in names && Ascii("forwarded") !in names
    ensures forall i, j :: 0 <= i < j < |names| ==> Ascends(names[i], names[j]) && names[i] != names[j]
  {
    assert |HOST| == 4 && |Ascii("x-forwarded-")| == 12 && |Ascii("authorization")| == 13 && |Ascii("forwarded")| == 9;
    assert n in names <==> n in Names(h);
    if n in names && n != HOST {
      var k :| k in h.Keys && IsSigned(Lower(k)) && Lower(k) == n;
      assert k in h;
    }
    assert Ascii("authorization") in names ==> Ascii("authorization") in Names(h);
    assert Ascii("forwarded") in names ==> Ascii("forwarded") in Names(h);
    forall i, j | 0 <= i < j < |names| ensures Ascends(names[i], names[j]) {
      LeqIsByteOrder(names[i], names[j]);
    }
  }

  /** The bytes of a text are the codes of its characters. */
  lemma AsciiIs(s: string)
    requires forall i :: 0 <= i < |s| ==> s[i] as int < 256
    ensures |Ascii(s)| == |s| && forall i :: 0 <= i < |s| ==> Ascii(s)[i] == s[i] as int
  {}

  /** Lower case changes the letters A to Z, and nothing else. */
  lemma LowerIs(s: Str)
    ensures |Lower(s)| == |s|
    ensures forall i :: 0 <= i < |s| ==>
              Lower(s)[i] == if 'A' <= s[i] as char <= 'Z' then s[i] - 'A' as int + 'a' as int else s[i]
  {
    forall i | 0 <= i < |s|
      ensures Lower(s)[i] == if 'A' <= s[i] as char <= 'Z' then s[i] - 'A' as int + 'a' as int else s[i]
    {
      LowerByteIs(s[i]);
    }
  }

  lemma LowerByteIs(b: Byte)
    ensures LowerByte(b) == if 'A' <= b as char <= 'Z' then b - 'A' as int + 'a' as int else b
  {}

  // ----- the code

  /** The keys of a map, collected in any order and sorted. */
  method SortedKeys(s: set<Str>) returns (names: seq<Str>)
    ensures Lists(names, s)
  {
    var keys: seq<Str> := [];
    var todo := s;
    while todo != {}
      invariant todo <= s
      invariant forall n :: n in keys <==> n in s && n !in todo
      invariant forall i, j :: 0 <= i < j < |keys| ==> keys[i] != keys[j]
      decreases todo
    {
      var k :| k in todo;
      keys := keys + [k];
      todo := todo - {k};
    }
    names := Sort(Leq, keys);
    LeqIsTotal();
    SortSorts(Leq, keys);
    PermutedDistinct(keys, names);
  }

  lemma PermutedDistinct(a: seq<Str>, b: seq<Str>)
    requires multiset(a) == multiset(b) && forall i, j :: 0 <= i < j < |a| ==> a[i] != a[j]
    ensures forall i, j :: 0 <= i < j < |b| ==> b[i] != b[j]
    ensures forall n :: n in a <==> n in b
  {
    forall n ensures n in a <==> n in b {
      assert n in multiset(a) <==> n in multiset(b);
    }
    forall i, j | 0 <= i < j < |b| ensures b[i] != b[j] {
      if b[i] == b[j] {
        Twice(b, i, j);
        Once(a, b[i]);
      }
    }
  }

  lemma Twice(b: seq<Str>, i: nat, j: nat)
    requires i < j < |b| && b[i] == b[j]
    ensures multiset(b)[b[i]] >= 2
  {
    assert b == b[..j] + [b[j]] + b[j + 1..];
    assert b[i] in b[..j];
  }

  lemma {:induction false} Once(a: seq<Str>, x: Str)
    requires forall i, j :: 0 <= i < j < |a| ==> a[i] != a[j]
    ensures multiset(a)[x] <= 1
  {
    if a != [] {
      Once(a[1..], x);
      assert a == [a[0]] + a[1..];
      if x == a[0] {
        assert x !in a[1..];
      }
    }
  }

  method SignedHeaders(h: Headers) returns (names: seq<Str>, text: Str)
    ensures Lists(names, Names(h)) && text == Join(names, SEMICOLON) == Join(names, ';' as int)
  {
    var found: set<Str> := {};
    var todo := h.Keys;
    ghost var seen: set<Str> := {};
    while todo != {}
      invariant seen + todo == h.Keys
      invariant found + {HOST} == NamesOf(seen)
      decreases todo
    {
      var key :| key in todo;
      NamesOfNext(seen, key);
      if IsSigned(Lower(key)) {
        found := found + {Lower(key)};
      }
      todo, seen := todo - {key}, seen + {key};
    }
    found := found + {HOST};
    assert seen == h.Keys;
    names := SortedKeys(found);
    text := Join(names, SEMICOLON);
  }

  function Line(name: Str, value: Str): Str {
    name + [COLON] + value + [NEWLINE]
  }

  /** One `name:value` line for each name. */
  function Lines(names: seq<Str>, m: map<Str, Str>): Str
    requires forall n :: n in names ==> n in m
  {
    if names == [] then []
    else Lines(names[..|names| - 1], m) + Line(names[|names| - 1], m[names[|names| - 1]])
  }

  function ValueOf(h: Headers, k: Str, norm: Str -> Str): Str
    requires k in h
  {
    norm(Join(h[k], COMMA))
  }

  ghost predicate HasSource(m: map<Str, Str>, h: Headers, norm: Str -> Str, n: Str)
    requires n in m
  {
    exists k :: k in h && Lower(k) == n && m[n] == ValueOf(h, k, norm)
  }

  /** The names of the keys, each with the value of a header of that name; the host comes from the request. */
  ghost predicate FitsOn(m: map<Str, Str>, keys: set<Str>, h: Headers, host: Str, norm: Str -> Str) {
    && m.Keys == NamesOf(keys) && HOST in m && m[HOST] == host
    && forall n :: n in m && n != HOST ==> HasSource(m, h, norm, n)
  }

  ghost predicate Fits(m: map<Str, Str>, h: Headers, host: Str, norm: Str -> Str) {
    FitsOn(m, h.Keys, h, host, norm)
  }

  lemma FitsNext(m: map<Str, Str>, keys: set<Str>, h: Headers, host: Str, norm: Str -> Str, key: Str)
    requires FitsOn(m, keys, h, host, norm) && key in h
    ensures FitsOn(if IsSigned(Lower(key)) then m[Lower(key) := ValueOf(h, key, norm)] else m, keys + {key}, h, host, norm)
  {
    NamesOfNext(keys, key);
    var m' := if IsSigned(Lower(key)) then m[Lower(key) := ValueOf(h, key, norm)] else m;
    forall n | n in m' && n != HOST ensures HasSource(m', h, norm, n) {
      if n in m && m'[n] == m[n] {
        assert HasSource(m, h, norm, n);
      }
    }
  }

  /** The headers of the map, each once, in the order in which a `range` loop walks it. */
  ghost predicate Walk(order: seq<Str>, h: Headers) {
    && (forall k :: k in order <==> k in h)
    && (forall i, j :: 0 <= i < j < |order| ==> order[i] != order[j])
  }

  /** The values as collected in that order: of names that differ in case only, the last one counts. */
  function Collected(h: Headers, order: seq<Str>, host: Str, norm: Str -> Str): map<Str, Str>
    requires forall k :: k in order ==> k in h
  {
    if order == [] then map[HOST := host]
    else
      var last := order[|order| - 1];
      var m := Collected(h, order[..|order| - 1], host, norm);
      if IsSigned(Lower(last)) then m[Lower(last) := ValueOf(h, last, norm)] else m
  }

  ghost function Elements(order: seq<Str>): set<Str> {
    set k | k in order
  }

  /** The values of one header are joined by commas and folded. */
  lemma ValueIs(h: Headers, k: Str, norm: Str -> Str)
    requires k in h
    ensures ValueOf(h, k, norm) == norm(Join(h[k], ',' as int))
  {}

  lemma {:induction false} CollectedFits(h: Headers, order: seq<Str>, host: Str, norm: Str -> Str)
    requires forall k :: k in order ==> k in h
    ensures FitsOn(Collected(h, order, host, norm), Elements(order), h, host, norm)
  {
    if order != [] {
      var n := |order| - 1;
      CollectedFits(h, order[..n], host, norm);
      FitsNext(Collected(h, order[..n], host, norm), Elements(order[..n]), h, host, norm, order[n]);
      assert order == order[..n] + [order[n]];
      assert Elements(order) == Elements(order[..n]) + {order[n]};
    }
  }

  lemma WalkFits(h: Headers, order: seq<Str>, host: Str, norm: Str -> Str)
    requires Walk(order, h)
    ensures Fits(Collected(h, order, host, norm), h, host, norm)
  {
    CollectedFits(h, order, host, norm);
    assert Elements(order) == h.Keys;
  }

  /** The loop over the headers, in whatever order the map yields them; `norm` folds white space. */
  method Collect(h: Headers, host: Str, norm: Str -> Str) returns (m: map<Str, Str>, ghost order: seq<Str>)
    ensures Walk(order, h) && m == Collected(h, order, host, norm)
  {
    m := map[HOST := host];
    order := [];
    var todo := h.Keys;
    while todo != {}
      invariant todo <= h.Keys
      invariant forall k :: k in order <==> k in h && k !in todo
      invariant forall i, j :: 0 <= i < j < |order| ==> order[i] != order[j]
      invariant m == Collected(h, order, host, norm)
      decreases todo
    {
      var key :| key in todo;
      ghost var longer := order + [key];
      assert longer[..|order|] == order;
      if IsSigned(Lower(key)) {
        m := m[Lower(key) := norm(Join(h[key], COMMA))];
      }
      order, todo := longer, todo - {key};
    }
  }

  lemma LineAppends(text: Str, name: Str, value: Str)
    ensures text + name + [COLON] + value + [NEWLINE] == text + Line(name, value)
  {}

  method WriteLines(names: seq<Str>, m: map<Str, Str>) returns (text: Str)
    requires forall n :: n in names ==> n in m
    ensures text == Lines(names, m)
  {
    text := [];
    for i := 0 to |names|
      invariant text == Lines(names[..i], m)
    {
      assert names[..i + 1][..i] == names[..i];
      LineAppends(text, names[i], m[names[i]]);
      text := text + names[i] + [COLON] + m[names[i]] + [NEWLINE];
    }
    assert names[..|names|] == names;
  }

  /** The block that the code writes when the map is walked in the given order. */
  ghost function Block(h: Headers, order: seq<Str>, host: Str, norm: Str -> Str, names: seq<Str>): Str
    requires Walk(order, h) && Lists(names, Names(h))
  {
    WalkFits(h, order, host, norm);
    Lines(names, Collected(h, order, host, norm))
  }

  method CanonicalHeaders(h: Headers, host: Str, norm: Str -> Str)
    returns (names: seq<Str>, m: map<Str, Str>, text: Str, ghost order: seq<Str>)
    ensures Lists(names, Names(h)) && Fits(m, h, host, norm)
    ensures (forall n :: n in names ==> n in m) && text == Lines(names, m)
    ensures Walk(order, h) && text == Block(h, order, host, norm, names)
  {
    m, order := Collect(h, host, norm);
    WalkFits(h, order, host, norm);
    names := SortedKeys(m.Keys);
    text := WriteLines(names, m);
  }

  /** Two runs of the code over the same headers, in whatever order their maps are walked, list the same
      names; so the signed list names exactly the lines of the block. */
  lemma SignedListNamesTheBlock(h: Headers, signed: seq<Str>, block: seq<Str>)
    requires Lists(signed, Names(h)) && Lists(block, Names(h))
    ensures signed == block
  {
    ListsUnique(signed, block, Names(h));
  }

  /** Headers whose names differ in case only carry the same value. */
  ghost predicate Unambiguous(h: Headers, norm: Str -> Str) {
    forall j, k :: j in h && k in h && IsSigned(Lower(j)) && Lower(j) == Lower(k) ==> ValueOf(h, j, norm) == ValueOf(h, k, norm)
  }

  lemma {:induction false} SomeOrder(keys: set<Str>) returns (order: seq<Str>)
    ensures forall k :: k in order <==> k in keys
    ensures forall i, j :: 0 <= i < j < |order| ==> order[i] != order[j]
  {
    order := [];
    if keys != {} {
      var k :| k in keys;
      order := SomeOrder(keys - {k});
      order := order + [k];
    }
  }

  /** The map may be walked with a given header last, whose value then counts. */
  lemma WalkEndsIn(h: Headers, host: Str, norm: Str -> Str, j: Str) returns (order: seq<Str>)
    requires j in h && IsSigned(Lower(j))
    ensures Walk(order, h)
    ensures var m := Collected(h, order, host, norm); Lower(j) in m && m[Lower(j)] == ValueOf(h, j, norm)
  {
    order := SomeOrder(h.Keys - {j});
    order := order + [j];
  }

  lemma SameValues(h: Headers, host: Str, norm: Str -> Str, m: map<Str, Str>, m': map<Str, Str>)
    requires Unambiguous(h, norm) && Fits(m, h, host, norm) && Fits(m', h, host, norm)
    ensures m == m'
  {
    forall n | n in m && n != HOST ensures m[n] == m'[n] {
      assert HasSource(m, h, norm, n) && HasSource(m', h, norm, n);
    }
  }

  ghost predicate Covers(m: map<Str, Str>, names: seq<Str>) {
    forall n :: n in names ==> n in m
  }

  /** A line is `name:value` and a line break; the block is its lines one after the other. */
  lemma LinesAre(names: seq<Str>, m: map<Str, Str>)
    requires Covers(m, names)
    ensures names == [] ==> Lines(names, m) == []
    ensures names != [] ==>
              Lines(names, m) == names[0] + [':' as int] + m[names[0]] + ['\n' as int] + Lines(names[1..], m)
  {
    if names != [] {
      LinesFront(names, m);
    }
  }

  lemma {:induction false} LinesFront(names: seq<Str>, m: map<Str, Str>)
    requires Covers(m, names) && names != []
    ensures Lines(names, m) == Line(names[0], m[names[0]]) + Lines(names[1..], m)
  {
    var n := |names| - 1;
    if n > 0 {
      LinesFront(names[..n], m);
      assert names[1..][..n - 1] == names[..n][1..] && names[1..][n - 1] == names[n];
      Associate(Line(names[0], m[names[0]]), Lines(names[..n][1..], m), Line(names[n], m[names[n]]));
    }
  }

  /** A value of a line, which has no line break of its own unless it is the same on both sides. */
  ghost predicate SameOrUnbroken(v: Str, w: Str) {
    v == w || (NEWLINE !in v && NEWLINE !in w)
  }

  lemma SplitsAtBreak(v: Str, w: Str, a: Str, b: Str)
    requires SameOrUnbroken(v, w) && v + [NEWLINE] + a == w + [NEWLINE] + b
    ensures v == w && a == b
  {
    if v == w {
      assert (v + [NEWLINE] + a)[|v| + 1..] == a && (w + [NEWLINE] + b)[|w| + 1..] == b;
    } else {
      CutFirst(v, NEWLINE, a);
      CutFirst(w, NEWLINE, b);
    }
  }

  lemma FirstLine(x: Str, v: Str, w: Str, a: Str, b: Str)
    requires SameOrUnbroken(v, w) && Line(x, v) + a == Line(x, w) + b
    ensures v == w && a == b
  {
    var k := |x| + 1;
    assert (Line(x, v) + a)[k..] == v + [NEWLINE] + a && (Line(x, w) + b)[k..] == w + [NEWLINE] + b;
    SplitsAtBreak(v, w, a, b);
  }

  /** The text of a block determines its values. */
  lemma {:induction false} LinesInjective(names: seq<Str>, m: map<Str, Str>, m': map<Str, Str>)
    requires Covers(m, names) && Covers(m', names) && Lines(names, m) == Lines(names, m')
    requires forall n :: n in names ==> SameOrUnbroken(m[n], m'[n])
    ensures forall n :: n in names ==> m[n] == m'[n]
  {
    if names != [] {
      var x, rest := names[0], names[1..];
      LinesFront(names, m);
      LinesFront(names, m');
      FirstLine(x, m[x], m'[x], Lines(rest, m), Lines(rest, m'));
      LinesInjective(rest, m, m');
      assert names == [x] + rest;
    }
  }

  /** Folded values have no line breaks. */
  ghost predicate Folds(norm: Str -> Str) {
    forall s :: NEWLINE !in norm(s)
  }

  lemma SameTextSameValues(h: Headers, host: Str, norm: Str -> Str, names: seq<Str>, m: map<Str, Str>, m': map<Str, Str>)
    requires Folds(norm) && Fits(m, h, host, norm) && Fits(m', h, host, norm)
    requires Covers(m, names) && Covers(m', names) && Lines(names, m) == Lines(names, m')
    ensures forall n :: n in names ==> m[n] == m'[n]
  {
    forall n | n in names ensures SameOrUnbroken(m[n], m'[n]) {
      assert n == HOST || (HasSource(m, h, norm, n) && HasSource(m', h, norm, n));
    }
    LinesInjective(names, m, m');
  }

  /** In whatever order the code walks the map, it writes one text. */
  ghost predicate OneText(h: Headers, host: Str, norm: Str -> Str, names: seq<Str>)
    requires Lists(names, Names(h))
  {
    forall one, two :: Walk(one, h) && Walk(two, h) ==> Block(h, one, host, norm, names) == Block(h, two, host, norm, names)
  }

  lemma OneTextOneValue(h: Headers, host: Str, norm: Str -> Str, names: seq<Str>, j: Str, k: Str)
    requires Lists(names, Names(h)) && Folds(norm) && OneText(h, host, norm, names)
    requires j in h && k in h && IsSigned(Lower(j)) && Lower(j) == Lower(k)
    ensures ValueOf(h, j, norm) == ValueOf(h, k, norm)
  {
    var one := WalkEndsIn(h, host, norm, j);
    var two := WalkEndsIn(h, host, norm, k);
    WalkFits(h, one, host, norm);
    WalkFits(h, two, host, norm);
    assert Block(h, one, host, norm, names) == Block(h, two, host, norm, names);
    assert Lower(j) in names;
    SameTextSameValues(h, host, norm, names, Collected(h, one, host, norm), Collected(h, two, host, norm));
  }

  /** The text of the block is the same in whatever order the map is walked if and only if the headers are
      unambiguous. */
  lemma BlockIsDeterminedIff(h: Headers, host: Str, norm: Str -> Str, names: seq<Str>)
    requires Lists(names, Names(h)) && Folds(norm)
    ensures OneText(h, host, norm, names) <==> Unambiguous(h, norm)
  {
    if Unambiguous(h, norm) {
      forall one, two | Walk(one, h) && Walk(two, h)
        ensures Block(h, one, host, norm, names) == Block(h, two, host, norm, names)
      {
        WalkFits(h, one, host, norm);
        WalkFits(h, two, host, norm);
        SameValues(h, host, norm, Collected(h, one, host, norm), Collected(h, two, host, norm));
      }
    }
    if OneText(h, host, norm, names) {
      forall j, k | j in h && k in h && IsSigned(Lower(j)) && Lower(j) == Lower(k)
        ensures ValueOf(h, j, norm) == ValueOf(h, k, norm)
      {
        OneTextOneValue(h, host, norm, names, j, k);
      }
    }
  }
}
