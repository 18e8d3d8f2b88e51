/** Decimal numbers as ASCII digits. */
module Decimal {
  import opened Common

  const ZERO: byte := 48

  predicate IsDigit(b: byte) {
    48 <= b <= 57
  }

  predicate AllDigits(s: Bytes) {
    forall i :: 0 <= i < |s| ==> IsDigit(s[i])
  }

  /** How many digits the text starts with. */
  function DigitCount(s: Bytes): (n: nat)
    ensures n <= |s| && AllDigits(s[..n]) && (n < |s| ==> !IsDigit(s[n]))
  {
    if s == [] || !IsDigit(s[0]) then 0
    else
      var rest := DigitCount(s[1..]);
      assert s[..rest + 1] == [s[0]] + s[1..][..rest];
      rest + 1
  }

  function Value(digits: Bytes): nat
    requires AllDigits(digits)
  {
    if digits == [] then 0
    else 10 * Value(digits[..|digits| - 1]) + (digits[|digits| - 1] - ZERO) as nat
  }

  function Print(n: nat): (digits: Bytes)
    ensures digits != [] && AllDigits(digits)
  {
    var last := ZERO + (n % 10) as byte;
    if n < 10 then [last] else Print(n / 10) + [last]
  }

  /** Reading back what was printed. */
  lemma {:induction false} ValueOfPrint(n: nat)
    ensures Value(Print(n)) == n
  {
    var last := ZERO + (n % 10) as byte;
    if n >= 10 {
      ValueOfPrint(n / 10);
      assert Print(n)[..|Print(n)| - 1] == Print(n / 10);
    } else {
      assert [last][..0] == [];
      assert Value([]) == 0;
    }
  }

  /** Digits followed by something that is no digit are counted exactly. */
  lemma {:induction false} DigitCountOf(digits: Bytes, rest: Bytes)
    requires AllDigits(digits) && (rest != [] ==> !IsDigit(rest[0]))
    ensures DigitCount(digits + rest) == |digits|
  {
    if digits == [] {
      assert digits + rest == rest;
    } else {
      assert (digits + rest)[1..] == digits[1..] + rest;
      DigitCountOf(digits[1..], rest);
    }
  }

  lemma {:induction false} PrintIsShort(n: nat, bound: nat)
    requires n < Power10(bound) && bound > 0
    ensures |Print(n)| <= bound
  {
    if n >= 10 {
      PrintIsShort(n / 10, bound - 1);
    }
  }

  function Power10(k: nat): nat {
    if k == 0 then 1 else 10 * Power10(k - 1)
  }

  /** The first digits count for more by a power of ten. */
  lemma {:induction false} ValueOfBoth(a: Bytes, b: Bytes)
    requires AllDigits(a) && AllDigits(b)
    ensures AllDigits(a + b) && Value(a + b) == Value(a) * Power10(|b|) + Value(b)
    decreases |b|
  {
    if b == [] {
      assert a + b == a;
    } else {
      var k := |b| - 1;
      ValueOfBoth(a, b[..k]);
      assert (a + b)[..|a + b| - 1] == a + b[..k];
      assert Value(a) * Power10(|b|) == 10 * (Value(a) * Power10(k));
    }
  }

  lemma {:induction false} ValueOfOne(digit: byte)
    requires IsDigit(digit)
    ensures Value([digit]) == digit as nat - 48
  {
    assert [digit][..0] == [] && Value([]) == 0;
  }

  /** No number is printed with a zero in front, but zero itself. */
  lemma {:induction false} PrintIsCanonical(n: nat)
    ensures if n == 0 then Print(n) == [48] else Print(n)[0] != 48
  {
    if n >= 10 {
      PrintIsCanonical(n / 10);
    }
  }
}
