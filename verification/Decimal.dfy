/** Decimal text of natural numbers, as bytes. */
module Decimal {
  import opened Common

  const ZERO: Byte := 0x30

  predicate IsDigit(b: Byte) {
    ZERO <= b <= ZERO + 9
  }

  predicate AllDigits(s: seq<Byte>) {
    forall i :: 0 <= i < |s| ==> IsDigit(s[i])
  }

  /** The number a digit string denotes. */
  function Value(s: seq<Byte>): nat
    requires AllDigits(s)
  {
    if s == [] then 0 else Value(s[..|s| - 1]) * 10 + (s[|s| - 1] - ZERO) as nat
  }

  /** The shortest decimal text of a number. */
  function Print(n: nat): (s: seq<Byte>)
    ensures |s| > 0 && AllDigits(s)
  {
    if n < 10 then [ZERO + n] else Print(n / 10) + [ZERO + n % 10]
  }

  /** No superfluous leading zero. */
  predicate Canonical(s: seq<Byte>) {
    |s| > 0 && AllDigits(s) && (|s| > 1 ==> s[0] != ZERO)
  }

  lemma {:induction false} PrintIsCanonical(n: nat)
    ensures Canonical(Print(n)) && Value(Print(n)) == n
    ensures n > 0 ==> Print(n)[0] != ZERO
  {
    if n >= 10 {
      PrintIsCanonical(n / 10);
      assert Print(n)[..|Print(n)| - 1] == Print(n / 10);
    } else {
      assert Print(n)[..0] == [];
    }
  }

  lemma {:induction false} CanonicalIsPrinted(s: seq<Byte>)
    requires Canonical(s)
    ensures Print(Value(s)) == s
    ensures s[0] != ZERO ==> Value(s) > 0
  {
    var init, last := s[..|s| - 1], s[|s| - 1];
    if |s| == 1 {
      assert init == [] && Value(init) == 0;
    } else {
      CanonicalIsPrinted(init);
      assert Value(s) / 10 == Value(init) && Value(s) % 10 == (last - ZERO) as nat;
      assert s == init + [last];
    }
  }

  /** A whole string of decimal digits whose value is at most `max`. */
  function ParseUnsigned(s: seq<Byte>, max: nat): Option<nat> {
    if s != [] && AllDigits(s) && Value(s) <= max then Some(Value(s)) else None
  }
}
