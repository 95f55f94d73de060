/** Byte strings, as Go strings are, with the string functions the models share. */
module Bytes {
  import opened Sorting

  type Byte = b: int | 0 <= b < 256
  type Str = seq<Byte>

  lemma Associate<T>(a: seq<T>, b: seq<T>, c: seq<T>)
    ensures a + (b + c) == (a + b) + c
  {}

  // ----- strings.Split, strings.Cut and strings.Join on a one-byte separator

  function Split(s: Str, sep: Byte): (pieces: seq<Str>)
    ensures pieces != []
  {
    if s == [] then [[]]
    else
      var rest := Split(s[1..], sep);
      if s[0] == sep then [[]] + rest else [[s[0]] + rest[0]] + rest[1..]
  }

  function Join(pieces: seq<Str>, sep: Byte): Str {
    if pieces == [] then []
    else if |pieces| == 1 then pieces[0]
    else pieces[0] + [sep] + Join(pieces[1..], sep)
  }

  /** The text before the first `sep` and the text after it; all and nothing when there is none. */
  function Cut(s: Str, sep: Byte): (Str, Str) {
    if s == [] then ([], [])
    else if s[0] == sep then ([], s[1..])
    else var (a, b) := Cut(s[1..], sep); ([s[0]] + a, b)
  }

  lemma {:induction false} SplitWhole(s: Str, sep: Byte)
    requires sep !in s
    ensures Split(s, sep) == [s]
  {
    if s != [] {
      SplitWhole(s[1..], sep);
      assert [s[0]] + s[1..] == s;
    }
  }

  lemma {:induction false} SplitFirst(a: Str, sep: Byte, b: Str)
    requires sep !in a
    ensures Split(a + [sep] + b, sep) == [a] + Split(b, sep)
  {
    var s := a + [sep] + b;
    if a == [] {
      assert s[1..] == b;
    } else {
      SplitFirst(a[1..], sep, b);
      assert s[1..] == a[1..] + [sep] + b;
      assert [a[0]] + a[1..] == a;
    }
  }

  /** Splitting undoes joining when no piece holds the separator. */
  lemma {:induction false} SplitJoin(pieces: seq<Str>, sep: Byte)
    requires pieces != [] && forall i :: 0 <= i < |pieces| ==> sep !in pieces[i]
    ensures Split(Join(pieces, sep), sep) == pieces
  {
    if |pieces| == 1 {
      SplitWhole(pieces[0], sep);
    } else {
      SplitJoin(pieces[1..], sep);
      SplitFirst(pieces[0], sep, Join(pieces[1..], sep));
    }
  }

  lemma {:induction false} CutFirst(a: Str, sep: Byte, b: Str)
    requires sep !in a
    ensures Cut(a + [sep] + b, sep) == (a, b)
  {
    var s := a + [sep] + b;
    if a == [] {
      assert s[1..] == b;
    } else {
      CutFirst(a[1..], sep, b);
      assert s[1..] == a[1..] + [sep] + b;
      assert [a[0]] + a[1..] == a;
    }
  }

  // ----- the byte order of Go strings

  predicate Leq(a: Str, b: Str) {
    a == [] || (b != [] && (a[0] < b[0] || (a[0] == b[0] && Leq(a[1..], b[1..]))))
  }

  lemma {:induction false} LeqTotal(a: Str, b: Str)
    ensures Leq(a, b) || Leq(b, a)
  {
    if a != [] && b != [] {
      LeqTotal(a[1..], b[1..]);
    }
  }

  lemma {:induction false} LeqAntisymmetric(a: Str, b: Str)
    requires Leq(a, b) && Leq(b, a)
    ensures a == b
  {
    if a != [] && b != [] {
      LeqAntisymmetric(a[1..], b[1..]);
      assert a == [a[0]] + a[1..] && b == [b[0]] + b[1..];
    }
  }

  lemma {:induction false} LeqTransitive(a: Str, b: Str, c: Str)
    requires Leq(a, b) && Leq(b, c)
    ensures Leq(a, c)
  {
    if a != [] && a[0] == b[0] == c[0] {
      LeqTransitive(a[1..], b[1..], c[1..]);
    }
  }

  /** The byte order is a total order. */
  lemma {:induction false} LeqIsTotal()
    ensures TotalOrder(Leq)
  {
    forall a: Str, b: Str ensures Leq(a, b) || Leq(b, a) {
      LeqTotal(a, b);
    }
    forall a: Str, b: Str | Leq(a, b) && Leq(b, a) ensures a == b {
      LeqAntisymmetric(a, b);
    }
    forall a: Str, b: Str, c: Str | Leq(a, b) && Leq(b, c) ensures Leq(a, c) {
      LeqTransitive(a, b, c);
    }
  }

  /** Ascending byte order, said without recursion: one is the beginning of the other, or the smaller one has the
      smaller byte where they first differ. */
  ghost predicate Ascends(a: Str, b: Str) {
    a <= b || exists k :: 0 <= k < |a| && k < |b| && a[..k] == b[..k] && a[k] < b[k]
  }

  lemma {:induction false} LeqIsByteOrder(a: Str, b: Str)
    ensures Leq(a, b) <==> Ascends(a, b)
  {
    if a != [] && b != [] && a[0] == b[0] {
      LeqIsByteOrder(a[1..], b[1..]);
      assert a == [a[0]] + a[1..] && b == [a[0]] + b[1..];
      if k :| 0 <= k < |a| && k < |b| && a[..k] == b[..k] && a[k] < b[k] {
        assert k > 0 && a[1..][..k - 1] == a[..k][1..] && b[1..][..k - 1] == b[..k][1..];
        assert a[1..][k - 1] < b[1..][k - 1];
      }
      if k :| 0 <= k < |a[1..]| && k < |b[1..]| && a[1..][..k] == b[1..][..k] && a[1..][k] < b[1..][k] {
        assert a[..k + 1] == [a[0]] + a[1..][..k] && b[..k + 1] == [a[0]] + b[1..][..k];
        assert a[k + 1] < b[k + 1];
      }
    } else if a != [] && b != [] && a[0] < b[0] {
      assert a[..0] == b[..0];
    }
  }

  /** Splitting loses nothing and leaves no separator behind. */
  lemma {:induction false} JoinSplit(s: Str, sep: Byte)
    ensures Join(Split(s, sep), sep) == s
    ensures forall i :: 0 <= i < |Split(s, sep)| ==> sep !in Split(s, sep)[i]
  {
    if s != [] {
      JoinSplit(s[1..], sep);
      var rest := Split(s[1..], sep);
      assert s == [s[0]] + s[1..];
      if s[0] == sep {
        assert ([[]] + rest)[1..] == rest;
      } else {
        var pieces := Split(s, sep);
        assert pieces[1..] == rest[1..] && pieces[0] == [s[0]] + rest[0];
        forall i | 0 <= i < |pieces| ensures sep !in pieces[i] {
          assert i > 0 ==> pieces[i] == rest[i];
        }
        if |rest| > 1 {
          assert Join(pieces, sep) == [s[0]] + (rest[0] + [sep] + Join(rest[1..], sep));
        }
      }
    }
  }

  /** The cut is at the first separator, if there is one. */
  lemma {:induction false} CutIs(s: Str, sep: Byte)
    ensures var (a, b) := Cut(s, sep);
            sep !in a && if sep in s then s == a + [sep] + b else a == s && b == []
  {
    if s != [] && s[0] != sep {
      CutIs(s[1..], sep);
      assert s == [s[0]] + s[1..];
    }
  }

  /** Joined text, with the separator between neighbours. */
  lemma JoinIs(a: Str, b: Str, rest: seq<Str>, sep: Byte)
    ensures Join([], sep) == [] && Join([a], sep) == a
    ensures Join([a, b] + rest, sep) == a + [sep] + Join([b] + rest, sep)
  {
    assert ([a, b] + rest)[1..] == [b] + rest;
  }
}
