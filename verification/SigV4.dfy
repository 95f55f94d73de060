/** The canonical query string of AWS Signature Version 4: decode, re-encode, sort, join.
    The unreserved set is that of section 2.3 of RFC 3986. */
module SigV4 {
  import opened Bytes
  import opened Sorting
  import opened Wrappers

  const AMP: Byte := 38
  const EQ: Byte := 61
  const PERCENT: Byte := 37
  const PLUS: Byte := 43
  const SPACE: Byte := 32

  /** Letters, digits and `-_.~`. */
  predicate Unreserved(b: Byte) {
    65 <= b <= 90 || 97 <= b <= 122 || 48 <= b <= 57 || b == 45 || b == 95 || b == 46 || b == 126
  }

  function HexDigit(n: int): Byte
    requires 0 <= n < 16
  {
    if n < 10 then 48 + n else 55 + n
  }

  function Unhex(b: Byte): Option<int> {
    if 48 <= b <= 57 then Some(b - 48)
    else if 97 <= b <= 102 then Some(b - 87)
    else if 65 <= b <= 70 then Some(b - 55)
    else None
  }

  function EncodeByte(b: Byte): Str {
    if Unreserved(b) then [b] else [PERCENT, HexDigit(b / 16), HexDigit(b % 16)]
  }

  /** `awsURLEncode`. */
  function Encode(s: Str): Str {
    if s == [] then [] else EncodeByte(s[0]) + Encode(s[1..])
  }

  /** `url.QueryUnescape`: `+` is a space, and a `%` without two hexadecimal digits is an error. */
  function Unescape(s: Str): Option<Str> {
    if s == [] then Some([])
    else if s[0] == PERCENT then
      if |s| < 3 || Unhex(s[1]).None? || Unhex(s[2]).None? then None
      else
        var rest :- Unescape(s[3..]);
        var b: Byte := Unhex(s[1]).value * 16 + Unhex(s[2]).value;
        Some([b] + rest)
    else
      var rest :- Unescape(s[1..]);
      Some([if s[0] == PLUS then SPACE else s[0]] + rest)
  }

  lemma UnescapeByte(b: Byte, rest: Str)
    requires Unescape(rest).Some?
    ensures Unescape(EncodeByte(b) + rest) == Some([b] + Unescape(rest).value)
  {
    var e := EncodeByte(b);
    assert (e + rest)[|e|..] == rest;
  }

  /** Decoding undoes the encoding, on every byte string. */
  lemma {:induction false} UnescapeEncode(s: Str)
    ensures Unescape(Encode(s)) == Some(s)
  {
    if s != [] {
      UnescapeEncode(s[1..]);
      UnescapeByte(s[0], Encode(s[1..]));
      assert [s[0]] + s[1..] == s;
    }
  }

  /** A letter, a digit or one of `-_.~` stands for itself; any other byte becomes `%` and its two upper-case
      hexadecimal digits. */
  lemma EncodeByteIsExact(b: Byte)
    ensures var c := b as char;
            Encode([b]) ==
            if 'A' <= c <= 'Z' || 'a' <= c <= 'z' || '0' <= c <= '9' || c == '-' || c == '_' || c == '.' || c == '~'
            then [b]
            else ['%' as int, "0123456789ABCDEF"[b / 16] as int, "0123456789ABCDEF"[b % 16] as int]
  {
    assert Encode([b]) == EncodeByte(b) + Encode([b][1..]);
    HexDigitIs(b / 16);
    HexDigitIs(b % 16);
  }

  lemma HexDigitIs(n: int)
    requires 0 <= n < 16
    ensures HexDigit(n) == "0123456789ABCDEF"[n] as int
  {}

  // ----- what decoding accepts

  /** The value of a hexadecimal digit of either case. */
  predicate HexValue(h: Byte, v: int) {
    var c := h as char;
    || ('0' <= c <= '9' && v == h - '0' as int)
    || ('a' <= c <= 'f' && v == h - 'a' as int + 10)
    || ('A' <= c <= 'F' && v == h - 'A' as int + 10)
  }

  /** A byte is written as itself, as `+` if it is a space, or as `%` and two hexadecimal digits. */
  ghost predicate Spells(token: Str, b: Byte) {
    || (token == [b] && b as char != '%' && b as char != '+')
    || (token == ['+' as int] && b as char == ' ')
    || (|token| == 3 && token[0] as char == '%' && exists x, y :: HexValue(token[1], x) && HexValue(token[2], y) && 16 * x + y == b)
  }

  function Flat(tokens: seq<Str>): Str {
    if tokens == [] then [] else tokens[0] + Flat(tokens[1..])
  }

  ghost predicate Reads(s: Str, t: Str, tokens: seq<Str>) {
    |tokens| == |t| && s == Flat(tokens) && forall i :: 0 <= i < |t| ==> Spells(tokens[i], t[i])
  }

  lemma UnhexIs(h: Byte, v: int)
    ensures Unhex(h) == Some(v) <==> HexValue(h, v)
  {}

  lemma {:induction false} UnescapeReads(s: Str) returns (tokens: seq<Str>)
    requires Unescape(s).Some?
    ensures Reads(s, Unescape(s).value, tokens)
  {
    tokens := [];
    if s != [] {
      var t := Unescape(s).value;
      var n := if s[0] == PERCENT then 3 else 1;
      if n == 3 {
        UnhexIs(s[1], Unhex(s[1]).value);
        UnhexIs(s[2], Unhex(s[2]).value);
        assert 16 * Unhex(s[1]).value + Unhex(s[2]).value == t[0];
      }
      assert Spells(s[..n], t[0]);
      var rest := UnescapeReads(s[n..]);
      tokens := [s[..n]] + rest;
      assert tokens[1..] == rest && s == s[..n] + s[n..];
      assert t[1..] == Unescape(s[n..]).value;
      forall i | 0 <= i < |t| ensures Spells(tokens[i], t[i]) {
        assert i > 0 ==> tokens[i] == rest[i - 1] && t[i] == t[1..][i - 1];
      }
    }
  }

  lemma UnescapeToken(token: Str, b: Byte, rest: Str)
    requires Spells(token, b) && Unescape(rest).Some?
    ensures Unescape(token + rest) == Some([b] + Unescape(rest).value)
  {
    assert (token + rest)[|token|..] == rest;
    if |token| == 3 {
      var x, y :| HexValue(token[1], x) && HexValue(token[2], y) && 16 * x + y == b;
      UnhexIs(token[1], x);
      UnhexIs(token[2], y);
    }
  }

  lemma {:induction false} ReadsUnescapes(s: Str, t: Str, tokens: seq<Str>)
    requires Reads(s, t, tokens)
    ensures Unescape(s) == Some(t)
    decreases |t|
  {
    if t != [] {
      ReadsUnescapes(Flat(tokens[1..]), t[1..], tokens[1..]);
      assert Spells(tokens[0], t[0]);
      UnescapeToken(tokens[0], t[0], Flat(tokens[1..]));
      assert [t[0]] + t[1..] == t;
    }
  }

  /** Decoding succeeds with `t` exactly when the text is a spelling of `t`, byte by byte; so a `%` without two
      hexadecimal digits makes it fail, and nothing else does. */
  lemma UnescapeIff(s: Str, t: Str)
    ensures Unescape(s) == Some(t) <==> exists tokens :: Reads(s, t, tokens)
  {
    if Unescape(s) == Some(t) {
      var tokens := UnescapeReads(s);
    }
    if tokens :| Reads(s, t, tokens) {
      ReadsUnescapes(s, t, tokens);
    }
  }

  /** The encoding uses unreserved bytes and `%` only, so no separator survives in it. */
  lemma {:induction false} EncodedBytes(s: Str)
    ensures forall b :: b in Encode(s) ==> Unreserved(b) || b == PERCENT
    ensures AMP !in Encode(s) && EQ !in Encode(s) && PLUS !in Encode(s)
  {
    if s != [] {
      EncodedBytes(s[1..]);
    }
  }

  // ----- parameters

  datatype Param = Param(name: Str, value: Str)

  function EncodeParam(p: Param): Param {
    Param(Encode(p.name), Encode(p.value))
  }

  /** One `name=value` piece, decoded. */
  function DecodePiece(piece: Str): Option<Param> {
    var (name, value) := Cut(piece, EQ);
    var n :- Unescape(name);
    var v :- Unescape(value);
    Some(Param(n, v))
  }

  /** All pieces, decoded in order; empty pieces do not count. */
  function DecodePieces(pieces: seq<Str>): Option<seq<Param>> {
    if pieces == [] then Some([])
    else if pieces[0] == [] then DecodePieces(pieces[1..])
    else
      var p :- DecodePiece(pieces[0]);
      var rest :- DecodePieces(pieces[1..]);
      Some([p] + rest)
  }

  /** The name/value pairs that a query string stands for, or `None` for a malformed one. */
  function Decode(query: Str): Option<seq<Param>> {
    DecodePieces(Split(query, AMP))
  }

  function Render(p: Param): Str {
    p.name + [EQ] + p.value
  }

  // ----- sorting

  predicate ParamLeq(p: Param, q: Param) {
    if p.name == q.name then Leq(p.value, q.value) else Leq(p.name, q.name)
  }

  lemma ParamTotal(p: Param, q: Param)
    ensures ParamLeq(p, q) || ParamLeq(q, p)
  {
    LeqTotal(p.name, q.name);
    LeqTotal(p.value, q.value);
  }

  lemma ParamAntisymmetric(p: Param, q: Param)
    requires ParamLeq(p, q) && ParamLeq(q, p)
    ensures p == q
  {
    if p.name == q.name {
      LeqAntisymmetric(p.value, q.value);
    } else {
      LeqAntisymmetric(p.name, q.name);
    }
  }

  lemma ParamTransitive(p: Param, q: Param, r: Param)
    requires ParamLeq(p, q) && ParamLeq(q, r)
    ensures ParamLeq(p, r)
  {
    if p.name == q.name == r.name {
      LeqTransitive(p.value, q.value, r.value);
    } else if p.name != q.name && q.name != r.name {
      LeqTransitive(p.name, q.name, r.name);
      if p.name == r.name {
        LeqAntisymmetric(p.name, q.name);
      }
    }
  }

  /** Ordered by name, and then by value. */
  lemma ParamLeqIsTotal()
    ensures TotalOrder(ParamLeq)
  {
    forall p: Param, q: Param ensures ParamLeq(p, q) || ParamLeq(q, p) {
      ParamTotal(p, q);
    }
    forall p: Param, q: Param | ParamLeq(p, q) && ParamLeq(q, p) ensures p == q {
      ParamAntisymmetric(p, q);
    }
    forall p: Param, q: Param, r: Param | ParamLeq(p, q) && ParamLeq(q, r) ensures ParamLeq(p, r) {
      ParamTransitive(p, q, r);
    }
  }

  // ----- the canonical query string

  function CanonicalOf(ps: seq<Param>): Str {
    Join(Map(Render, Sort(ParamLeq, Map(EncodeParam, ps))), AMP)
  }

  /** `parseQueryString`. */
  function Canonical(query: Str): Option<Str> {
    var ps :- Decode(query);
    Some(CanonicalOf(ps))
  }

  lemma DecodeRendered(p: Param)
    ensures Render(EncodeParam(p)) != [] && DecodePiece(Render(EncodeParam(p))) == Some(p)
  {
    EncodedBytes(p.name);
    CutFirst(Encode(p.name), EQ, Encode(p.value));
    UnescapeEncode(p.name);
    UnescapeEncode(p.value);
  }

  lemma {:induction false} DecodeAllRendered(ps: seq<Param>)
    ensures DecodePieces(Map(Render, Map(EncodeParam, ps))) == Some(ps)
  {
    if ps != [] {
      DecodeRendered(ps[0]);
      DecodeAllRendered(ps[1..]);
      assert Map(Render, Map(EncodeParam, ps))[1..] == Map(Render, Map(EncodeParam, ps[1..]));
      assert [ps[0]] + ps[1..] == ps;
    }
  }

  /** Encoding and joining is undone by decoding, for every list of pairs. */
  lemma DecodeJoined(ps: seq<Param>)
    ensures Decode(Join(Map(Render, Map(EncodeParam, ps)), AMP)) == Some(ps)
  {
    var pieces := Map(Render, Map(EncodeParam, ps));
    if ps == [] {
      assert pieces == [];
      assert DecodePieces([[]]) == DecodePieces([[]][1..]);
    } else {
      forall i | 0 <= i < |pieces| ensures AMP !in pieces[i] {
        EncodedBytes(ps[i].name);
        EncodedBytes(ps[i].value);
        assert pieces[i] == Render(EncodeParam(ps[i]));
        assert pieces[i] == Encode(ps[i].name) + [EQ] + Encode(ps[i].value);
      }
      SplitJoin(pieces, AMP);
      DecodeAllRendered(ps);
    }
  }

  function DecodeParam(p: Param): Param {
    Param(match Unescape(p.name) case Some(n) => n case None => [],
          match Unescape(p.value) case Some(v) => v case None => [])
  }

  /** The canonical string of some pairs joins the same pairs, encoded and in ascending order of the encoded
      names and then values. */
  lemma CanonicalOrder(ps: seq<Param>) returns (qs: seq<Param>)
    ensures multiset(qs) == multiset(ps) && Sorted(ParamLeq, Map(EncodeParam, qs))
    ensures CanonicalOf(ps) == Join(Map(Render, Map(EncodeParam, qs)), AMP)
  {
    var es := Map(EncodeParam, ps);
    var sorted := Sort(ParamLeq, es);
    ParamLeqIsTotal();
    SortSorts(ParamLeq, es);
    qs := Map(DecodeParam, sorted);
    DecodeEncoded(ps);
    MapPermutes(DecodeParam, sorted, es);
    EncodeDecoded(sorted, ps);
  }

  lemma DecodeEncodedParam(p: Param)
    ensures DecodeParam(EncodeParam(p)) == p
  {
    UnescapeEncode(p.name);
    UnescapeEncode(p.value);
  }

  lemma DecodeEncoded(ps: seq<Param>)
    ensures Map(DecodeParam, Map(EncodeParam, ps)) == ps
  {
    forall i | 0 <= i < |ps| ensures DecodeParam(EncodeParam(ps[i])) == ps[i] {
      DecodeEncodedParam(ps[i]);
    }
  }

  /** What is encoded already is encoded again by decoding and encoding it. */
  lemma EncodeDecoded(sorted: seq<Param>, ps: seq<Param>)
    requires multiset(sorted) == multiset(Map(EncodeParam, ps))
    ensures Map(EncodeParam, Map(DecodeParam, sorted)) == sorted
  {
    var es := Map(EncodeParam, ps);
    forall i | 0 <= i < |sorted| ensures EncodeParam(DecodeParam(sorted[i])) == sorted[i] {
      assert sorted[i] in multiset(sorted);
      assert sorted[i] in multiset(es);
      var k :| 0 <= k < |es| && es[k] == sorted[i];
      DecodeEncodedParam(ps[k]);
    }
  }

  lemma ParamLeqAscends(p: Param, q: Param)
    requires ParamLeq(p, q)
    ensures Ascends(p.name, q.name) && (p.name == q.name ==> Ascends(p.value, q.value))
  {
    LeqTotal(p.name, p.name);
    LeqIsByteOrder(p.name, q.name);
    LeqIsByteOrder(p.value, q.value);
  }

  /** The canonical string of a well-formed query: its pairs, each written `name=value` with both encoded, with `&`
      between them.  The encoded names ascend in byte order, and among equal names the encoded values. */
  lemma CanonicalAscends(query: Str) returns (qs: seq<Param>, pieces: seq<Str>)
    requires Decode(query).Some?
    ensures multiset(qs) == multiset(Decode(query).value) && |pieces| == |qs|
    ensures forall i :: 0 <= i < |qs| ==> pieces[i] == Encode(qs[i].name) + ['=' as int] + Encode(qs[i].value)
    ensures forall i, j :: 0 <= i < j < |qs| ==>
              && Ascends(Encode(qs[i].name), Encode(qs[j].name))
              && (qs[i].name == qs[j].name ==> Ascends(Encode(qs[i].value), Encode(qs[j].value)))
    ensures Canonical(query) == Some(Join(pieces, '&' as int))
  {
    qs := CanonicalOrder(Decode(query).value);
    pieces := Map(Render, Map(EncodeParam, qs));
    forall i, j | 0 <= i < j < |qs|
      ensures Ascends(Encode(qs[i].name), Encode(qs[j].name))
      ensures qs[i].name == qs[j].name ==> Ascends(Encode(qs[i].value), Encode(qs[j].value))
    {
      assert ParamLeq(Map(EncodeParam, qs)[i], Map(EncodeParam, qs)[j]);
      ParamLeqAscends(EncodeParam(qs[i]), EncodeParam(qs[j]));
    }
  }

  // ----- what a query stands for

  /** The piece is `name=value`, cut at its first `=`, or a name alone; both parts decode to the pair. */
  ghost predicate Parts(piece: Str, name: Str, value: Str, p: Param) {
    && '=' as int !in name && Unescape(name) == Some(p.name) && Unescape(value) == Some(p.value)
    && (piece == name + ['=' as int] + value || (piece == name && value == []))
  }

  ghost predicate Pair(piece: Str, p: Param) {
    exists name: Str, value: Str :: Parts(piece, name, value, p)
  }

  lemma PairIff(piece: Str, p: Param)
    ensures DecodePiece(piece) == Some(p) <==> Pair(piece, p)
  {
    CutIs(piece, EQ);
    if DecodePiece(piece) == Some(p) {
      var (name, value) := Cut(piece, EQ);
      assert Parts(piece, name, value, p);
    }
    if name: Str, value: Str :| Parts(piece, name, value, p) && piece == name + ['=' as int] + value {
      CutFirst(name, EQ, value);
    }
  }

  function Filled(pieces: seq<Str>): seq<Str> {
    if pieces == [] then [] else (if pieces[0] == [] then [] else [pieces[0]]) + Filled(pieces[1..])
  }

  lemma {:induction false} DecodePiecesIff(pieces: seq<Str>, ps: seq<Param>)
    ensures DecodePieces(pieces) == Some(ps) <==>
            |Filled(pieces)| == |ps| && forall i :: 0 <= i < |ps| ==> DecodePiece(Filled(pieces)[i]) == Some(ps[i])
  {
    if pieces != [] && pieces[0] == [] {
      DecodePiecesIff(pieces[1..], ps);
    } else if pieces != [] {
      var f := Filled(pieces);
      assert f[0] == pieces[0] && f[1..] == Filled(pieces[1..]);
      if ps != [] {
        DecodePiecesIff(pieces[1..], ps[1..]);
        assert ps == [ps[0]] + ps[1..];
        assert forall i :: 1 <= i < |ps| && i < |f| ==> f[i] == f[1..][i - 1] && ps[i] == ps[1..][i - 1];
      }
    }
  }

  /** The query is made of these pieces with `&` between them, of which those that are not empty are the pairs in
      order. */
  ghost predicate Stands(query: Str, pieces: seq<Str>, ps: seq<Param>) {
    && pieces != [] && query == Join(pieces, '&' as int)
    && (forall i :: 0 <= i < |pieces| ==> '&' as int !in pieces[i])
    && |Filled(pieces)| == |ps| && forall i :: 0 <= i < |ps| ==> Pair(Filled(pieces)[i], ps[i])
  }

  /** What a query stands for; it is malformed exactly when it stands for nothing. */
  lemma DecodeIff(query: Str, ps: seq<Param>)
    ensures Decode(query) == Some(ps) <==> exists pieces :: Stands(query, pieces, ps)
  {
    forall piece, p ensures DecodePiece(piece) == Some(p) <==> Pair(piece, p) {
      PairIff(piece, p);
    }
    JoinSplit(query, AMP);
    DecodePiecesIff(Split(query, AMP), ps);
    if Decode(query) == Some(ps) {
      assert Stands(query, Split(query, AMP), ps);
    }
    if pieces :| Stands(query, pieces, ps) {
      SplitJoin(pieces, AMP);
    }
  }

  lemma SamePairsSameString(ps: seq<Param>, qs: seq<Param>)
    requires multiset(ps) == multiset(qs)
    ensures CanonicalOf(ps) == CanonicalOf(qs)
  {
    MapPermutes(EncodeParam, ps, qs);
    ParamLeqIsTotal();
    SortIgnoresOrder(ParamLeq, Map(EncodeParam, ps), Map(EncodeParam, qs));
  }

  /** Two well-formed queries have the same canonical string exactly when they stand for the same
      pairs, as multisets. */
  lemma SameCanonicalIffSamePairs(a: Str, b: Str)
    requires Decode(a).Some? && Decode(b).Some?
    ensures Canonical(a) == Canonical(b) <==> multiset(Decode(a).value) == multiset(Decode(b).value)
  {
    var ps, qs := Decode(a).value, Decode(b).value;
    if multiset(ps) == multiset(qs) {
      SamePairsSameString(ps, qs);
    }
    if CanonicalOf(ps) == CanonicalOf(qs) {
      var ps' := CanonicalOrder(ps);
      var qs' := CanonicalOrder(qs);
      DecodeJoined(ps');
      DecodeJoined(qs');
    }
  }

  /** A canonical string is its own canonical string. */
  lemma CanonicalIsIdempotent(query: Str)
    requires Canonical(query).Some?
    ensures Canonical(Canonical(query).value) == Canonical(query)
  {
    var ps := Decode(query).value;
    var qs := CanonicalOrder(ps);
    DecodeJoined(qs);
    SameCanonicalIffSamePairs(query, Canonical(query).value);
  }

  // ----- the order of the pieces does not matter, well-formed or not

  function Concat(a: Option<seq<Param>>, b: Option<seq<Param>>): Option<seq<Param>> {
    if a.Some? && b.Some? then Some(a.value + b.value) else None
  }

  lemma {:induction false} DecodeConcat(a: seq<Str>, b: seq<Str>)
    ensures DecodePieces(a + b) == Concat(DecodePieces(a), DecodePieces(b))
  {
    if a == [] {
      assert a + b == b;
      assert DecodePieces(b).Some? ==> [] + DecodePieces(b).value == DecodePieces(b).value;
    } else {
      DecodeConcat(a[1..], b);
      assert (a + b)[1..] == a[1..] + b;
      var p, x, y := DecodePiece(a[0]), DecodePieces(a[1..]), DecodePieces(b);
      if p.Some? && x.Some? && y.Some? {
        Associate([p.value], x.value, y.value);
      }
    }
  }

  ghost predicate SameDecoding(a: Option<seq<Param>>, b: Option<seq<Param>>) {
    a.Some? == b.Some? && (a.Some? ==> multiset(a.value) == multiset(b.value))
  }

  lemma ConcatSwaps(a: Option<seq<Param>>, x: Option<seq<Param>>, b: Option<seq<Param>>)
    ensures SameDecoding(Concat(a, Concat(x, b)), Concat(x, Concat(a, b)))
  {}

  /** Pieces may be moved to the front. */
  lemma DecodeMoved(a: seq<Str>, x: seq<Str>, b: seq<Str>)
    ensures SameDecoding(DecodePieces(a + (x + b)), DecodePieces(x + (a + b)))
  {
    DecodeConcat(a, x + b);
    DecodeConcat(x, b);
    DecodeConcat(x, a + b);
    DecodeConcat(a, b);
    ConcatSwaps(DecodePieces(a), DecodePieces(x), DecodePieces(b));
  }

  lemma DecodeCons(x: Str, a: seq<Str>, b: seq<Str>)
    requires SameDecoding(DecodePieces(a), DecodePieces(b))
    ensures SameDecoding(DecodePieces([x] + a), DecodePieces([x] + b))
  {
    DecodeConcat([x], a);
    DecodeConcat([x], b);
  }

  lemma {:induction false} DecodePermutes(a: seq<Str>, b: seq<Str>)
    requires multiset(a) == multiset(b)
    ensures SameDecoding(DecodePieces(a), DecodePieces(b))
    decreases |a|
  {
    if a == [] {
      EmptyPermutes(b);
    } else {
      var i := Match(a, b);
      DecodePermutes(a[1..], Without(b, i));
      DecodeCons(a[0], a[1..], Without(b, i));
      DecodeMoved(b[..i], [b[i]], b[i + 1..]);
      assert a == [a[0]] + a[1..];
      assert b == b[..i] + ([b[i]] + b[i + 1..]);
    }
  }

  /** Reordering the pieces of a query never changes the outcome. */
  lemma {:induction false} OrderDoesNotMatter(a: Str, b: Str)
    requires multiset(Split(a, AMP)) == multiset(Split(b, AMP))
    ensures Canonical(a) == Canonical(b)
  {
    DecodePermutes(Split(a, AMP), Split(b, AMP));
    if Decode(a).Some? {
      SamePairsSameString(Decode(a).value, Decode(b).value);
    }
  }

  // ----- the code

  /** The encoding goes byte by byte. */
  lemma {:induction false} EncodeConcat(a: Str, b: Str)
    ensures Encode(a + b) == Encode(a) + Encode(b)
  {
    if a == [] {
      assert a + b == b;
    } else {
      EncodeConcat(a[1..], b);
      assert (a + b)[1..] == a[1..] + b;
      Associate(EncodeByte(a[0]), Encode(a[1..]), Encode(b));
    }
  }

  lemma EncodeSnoc(s: Str, b: Byte)
    ensures Encode(s + [b]) == Encode(s) + EncodeByte(b)
  {
    EncodeConcat(s, [b]);
    assert Encode([b]) == EncodeByte(b) + Encode([b][1..]);
  }

  method AwsUrlEncode(value: Str) returns (encoded: Str)
    ensures encoded == Encode(value)
  {
    encoded := [];
    for i := 0 to |value|
      invariant encoded == Encode(value[..i])
    {
      var b := value[i];
      assert value[..i + 1] == value[..i] + [b];
      EncodeSnoc(value[..i], b);
      if Unreserved(b) {
        encoded := encoded + [b];
      } else {
        encoded := encoded + [PERCENT, HexDigit(b / 16), HexDigit(b % 16)];
      }
    }
    assert value[..|value|] == value;
  }

  lemma DecodeOne(piece: Str)
    ensures DecodePieces([piece]) ==
            if piece == [] then Some([])
            else if DecodePiece(piece).Some? then Some([DecodePiece(piece).value]) else None
  {
    assert [piece][1..] == [];
    assert DecodePieces([piece][1..]) == Some([]);
    var p := DecodePiece(piece);
    assert p.Some? ==> [p.value] + [] == [p.value];
  }

  lemma {:induction false} DecodeSnoc(pieces: seq<Str>, i: nat)
    requires i < |pieces|
    ensures DecodePieces(pieces[..i + 1]) == Concat(DecodePieces(pieces[..i]), DecodePieces([pieces[i]]))
    ensures DecodePieces([pieces[i]]).None? ==> DecodePieces(pieces).None?
  {
    assert pieces[..i + 1] == pieces[..i] + [pieces[i]];
    DecodeConcat(pieces[..i], [pieces[i]]);
    assert pieces == pieces[..i + 1] + pieces[i + 1..];
    DecodeConcat(pieces[..i + 1], pieces[i + 1..]);
  }

  method RenderAll(params: seq<Param>) returns (encoded: seq<Str>)
    ensures encoded == Map(Render, params)
  {
    encoded := [];
    for i := 0 to |params|
      invariant |encoded| == i && forall k :: 0 <= k < i ==> encoded[k] == Render(params[k])
    {
      encoded := encoded + [params[i].name + [EQ] + params[i].value];
    }
  }

  method ParseQueryString(query: Str) returns (canonical: Option<Str>)
    ensures canonical == Canonical(query)
  {
    var pieces := Split(query, AMP);
    var params: seq<Param> := [];
    ghost var decoded: seq<Param> := [];
    for i := 0 to |pieces|
      invariant DecodePieces(pieces[..i]) == Some(decoded)
      invariant params == Map(EncodeParam, decoded)
    {
      DecodeSnoc(pieces, i);
      DecodeOne(pieces[i]);
      if pieces[i] == [] {
        assert decoded + [] == decoded;
        continue;
      }
      var (name, value) := Cut(pieces[i], EQ);
      var decodedName, decodedValue := Unescape(name), Unescape(value);
      if decodedName.None? || decodedValue.None? {
        return None;
      }
      var n := AwsUrlEncode(decodedName.value);
      var v := AwsUrlEncode(decodedValue.value);
      params := params + [Param(n, v)];
      MapSnoc(EncodeParam, decoded, Param(decodedName.value, decodedValue.value));
      decoded := decoded + [Param(decodedName.value, decodedValue.value)];
    }
    assert pieces[..|pieces|] == pieces;
    var encoded := RenderAll(Sort(ParamLeq, params));
    canonical := Some(Join(encoded, AMP));
  }
}
