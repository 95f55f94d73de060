/** Decimal numbers as `strconv` writes and reads them. */
module Decimal {
  predicate IsDigit(c: char) {
    '0' <= c <= '9'
  }

  /** `strconv.Itoa` of a non-negative number. */
  function Itoa(n: nat): (s: string)
    ensures s != [] && forall i :: 0 <= i < |s| ==> IsDigit(s[i])
  {
    var last := ['0' + (n % 10) as char];
    if n < 10 then last else Itoa(n / 10) + last
  }

  function Digits(s: string): int
    requires forall i :: 0 <= i < |s| ==> IsDigit(s[i])
  {
    if s == [] then 0 else Digits(s[..|s| - 1]) * 10 + (s[|s| - 1] as int - '0' as int)
  }

  lemma {:induction false} DigitsOfItoa(n: nat)
    ensures Digits(Itoa(n)) == n
  {
    var s := Itoa(n);
    var last := ['0' + (n % 10) as char];
    if n < 10 {
      assert s == last && s[..|s| - 1] == [];
    } else {
      DigitsOfItoa(n / 10);
      assert s == Itoa(n / 10) + last;
      assert s[..|s| - 1] == Itoa(n / 10);
    }
  }

  /** Each digit further right counts a tenth, and a digit counts its place in "0123456789". */
  lemma DigitsAre(s: string, v: nat)
    requires (forall i :: 0 <= i < |s| ==> IsDigit(s[i])) && v < 10
    ensures IsDigit("0123456789"[v])
    ensures Digits([]) == 0 && Digits(s + ["0123456789"[v]]) == 10 * Digits(s) + v
  {
    var t := s + ["0123456789"[v]];
    assert t[..|t| - 1] == s;
  }

  /** A written number has no leading zero. */
  lemma {:induction false} ItoaIsShortest(n: nat)
    ensures |Itoa(n)| > 1 ==> Itoa(n)[0] != '0'
    ensures n > 0 ==> Itoa(n)[0] != '0'
  {
    if n >= 10 {
      ItoaIsShortest(n / 10);
      assert Itoa(n)[0] == Itoa(n / 10)[0];
    }
  }
}
