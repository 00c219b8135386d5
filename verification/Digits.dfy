/** Numbers as the emitter writes them: least significant digit first. */
module Digits {

  function DigitChar(d: nat): char
    requires d < 10
  {
    '0' + d as char
  }

  predicate IsDigit(c: char) { '0' <= c <= '9' }

  predicate IsLetter(c: char) { 'a' <= c <= 'z' || 'A' <= c <= 'Z' || c == '_' }

  predicate AllDigits(s: string) { forall i :: 0 <= i < |s| ==> IsDigit(s[i]) }

  /** The decimal digits of a positive `n`, least significant first. */
  function LowFirst(n: nat): (s: string)
    ensures AllDigits(s)
    ensures n > 0 <==> s != ""
  {
    if n == 0 then "" else [DigitChar(n % 10)] + LowFirst(n / 10)
  }

  /** What the emitter prints for the number `n`. */
  function IntText(n: nat): (s: string)
    ensures s != "" && AllDigits(s)
  {
    if n == 0 then "0" else LowFirst(n)
  }

  /** The number a reader of ordinary decimal text makes of `s`. */
  function ReadDecimal(s: string): nat
    requires AllDigits(s)
  {
    if s == "" then 0 else 10 * ReadDecimal(s[..|s| - 1]) + (s[|s| - 1] - '0') as nat
  }

  function Reversed(s: string): (r: string)
    ensures |r| == |s|
    ensures forall i :: 0 <= i < |s| ==> r[i] == s[|s| - 1 - i]
  {
    seq(|s|, i requires 0 <= i < |s| => s[|s| - 1 - i])
  }

  /** `n` reads the same in both directions. Every number below ten does. */
  predicate Palindrome(n: nat) { IntText(n) == Reversed(IntText(n)) }

  lemma ReversedDigits(s: string)
    requires AllDigits(s)
    ensures AllDigits(Reversed(s))
  {}

  /** Reading the digits in their proper order gives the number back. */
  lemma {:induction false} ReadReversed(n: nat)
    ensures AllDigits(Reversed(LowFirst(n))) && ReadDecimal(Reversed(LowFirst(n))) == n
  {
    ReversedDigits(LowFirst(n));
    if n > 0 {
      ReadReversed(n / 10);
      var r := Reversed(LowFirst(n));
      assert r[..|r| - 1] == Reversed(LowFirst(n / 10));
      assert r[|r| - 1] == DigitChar(n % 10);
    }
  }

  lemma LowFirstIsNotZero(n: nat)
    requires n > 0
    ensures LowFirst(n) != "0"
  {
    assert LowFirst(n)[0] == DigitChar(n % 10);
    assert n >= 10 ==> |LowFirst(n / 10)| > 0;
  }

  /** Two numbers are never printed alike. */
  lemma {:induction false} IntTextInjective(m: nat, n: nat)
    requires IntText(m) == IntText(n)
    ensures m == n
  {
    if m > 0 && n > 0 {
      ReadReversed(m);
      ReadReversed(n);
    } else if m > 0 {
      LowFirstIsNotZero(m);
    } else if n > 0 {
      LowFirstIsNotZero(n);
    }
  }

  lemma {:induction false} ReadDecimalInjective(s: string, t: string)
    requires |s| == |t| && AllDigits(s) && AllDigits(t)
    requires ReadDecimal(s) == ReadDecimal(t)
    ensures s == t
  {
    if s != "" {
      var s', t' := s[..|s| - 1], t[..|t| - 1];
      assert ReadDecimal(s') == ReadDecimal(t');
      ReadDecimalInjective(s', t');
      assert s == s' + [s[|s| - 1]] && t == t' + [t[|t| - 1]];
    }
  }

  /** The printed literal denotes the number it was printed from exactly when
      that number is a palindrome. */
  lemma LiteralFaithful(n: nat)
    ensures ReadDecimal(IntText(n)) == n <==> Palindrome(n)
  {
    var s := IntText(n);
    ReversedDigits(s);
    if n == 0 {
      assert Reversed(s) == s;
      assert ReadDecimal(s) == 0 by { assert s[..0] == ""; assert s[0] == '0'; }
    } else {
      ReadReversed(n);
      assert ReadDecimal(Reversed(s)) == n;
      if ReadDecimal(s) == n {
        ReadDecimalInjective(s, Reversed(s));
      }
    }
  }

  /** Numbers of one digit survive; twelve is printed as twenty-one. */
  lemma OneDigitFaithful(n: nat)
    requires n < 10
    ensures Palindrome(n)
  {
    assert |IntText(n)| == 1 by { assert LowFirst(n / 10) == ""; }
    assert IntText(n) == Reversed(IntText(n));
  }

  lemma TwelveIsPrintedReversed()
    ensures IntText(12) == "21" && ReadDecimal(IntText(12)) == 21
  {
    assert LowFirst(1) == "1" by { assert LowFirst(0) == ""; }
    assert LowFirst(12) == "2" + LowFirst(1);
    var s := IntText(12);
    assert s[..1] == "2" && s[..1][..0] == "";
    assert ReadDecimal("2") == 2;
  }
}
