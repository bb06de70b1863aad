/** Decimal numerals as text. */
module Decimal {
  import opened Bytes

  const ZERO: byte := 48

  predicate IsDigit(c: byte) { ZERO <= c <= ZERO + 9 }

  predicate AllDigits(s: seq<byte>) { forall i :: 0 <= i < |s| ==> IsDigit(s[i]) }

  function Digits(n: nat): (s: seq<byte>)
    ensures s != [] && AllDigits(s)
  {
    if n < 10 then [ZERO + n] else Digits(n / 10) + [ZERO + n % 10]
  }

  function Value(s: seq<byte>): nat
    requires AllDigits(s)
  {
    if s == [] then 0 else 10 * Value(s[..|s| - 1]) + (s[|s| - 1] - ZERO)
  }

  /** The digits are the bytes 48 to 57, the most significant one in front. */
  lemma {:induction false} ValueAppend(s: seq<byte>, c: byte)
    requires AllDigits(s)
    ensures IsDigit(c) <==> 48 <= c <= 57
    ensures IsDigit(c) ==> AllDigits(s + [c]) && Value(s + [c]) == 10 * Value(s) + (c - 48)
    ensures Value([]) == 0
  {
    assert (s + [c])[..|s|] == s;
  }

  lemma {:induction false} ValueOfDigits(n: nat)
    ensures Value(Digits(n)) == n
  {
    if n >= 10 {
      ValueOfDigits(n / 10);
      assert Digits(n)[..|Digits(n)| - 1] == Digits(n / 10);
    } else {
      assert Value([]) == 0;
    }
  }

  /** Different numbers have different numerals. */
  lemma {:induction false} DigitsInjective(m: nat, n: nat)
    requires Digits(m) == Digits(n)
    ensures m == n
  {
    ValueOfDigits(m);
    ValueOfDigits(n);
  }

  lemma {:induction false} ByteDigits(n: nat)
    requires n < 256
    ensures |Digits(n)| <= 3
  {
    assert n / 10 < 10 || n / 10 / 10 < 10;
    assert |Digits(n / 10)| <= 2;
  }
}
