/** Decimal numerals: the printer of internal/httpmw/cors.go, also standing for strconv.Itoa. */
module Decimal {

  predicate IsDigit(c: char) {
    '0' <= c <= '9'
  }

  function DigitChar(d: nat): (c: char)
    requires d < 10
    ensures IsDigit(c)
  {
    '0' + d as char
  }

  function DigitValue(c: char): (d: nat)
    requires IsDigit(c)
    ensures d < 10
  {
    c as int - '0' as int
  }

  predicate AllDigits(s: string) {
    forall i :: 0 <= i < |s| ==> IsDigit(s[i])
  }

  /** The value of a string of decimal digits. */
  function ValueOf(s: string): nat
    requires AllDigits(s)
  {
    if s == "" then 0 else 10 * ValueOf(s[..|s| - 1]) + DigitValue(s[|s| - 1])
  }

  /** A numeral: digits only, at least one, no superfluous leading zero. */
  predicate Canonical(s: string) {
    AllDigits(s) && s != "" && (s[0] == '0' ==> |s| == 1)
  }

  function Numeral(n: nat): string {
    if n < 10 then [DigitChar(n)] else Numeral(n / 10) + [DigitChar(n % 10)]
  }

  lemma {:induction false} NumeralIsCanonical(n: nat)
    ensures Canonical(Numeral(n)) && ValueOf(Numeral(n)) == n
    ensures n > 0 ==> Numeral(n)[0] != '0'
  {
    if n < 10 {
      assert [DigitChar(n)][..0] == "";
    } else {
      NumeralIsCanonical(n / 10);
      var s := Numeral(n);
      assert s[..|s| - 1] == Numeral(n / 10);
    }
  }

  /** The only canonical string with value n is Numeral(n). */
  lemma {:induction false} NumeralIsUnique(s: string)
    requires Canonical(s)
    ensures s == Numeral(ValueOf(s))
    ensures s[0] != '0' ==> ValueOf(s) > 0
    decreases |s|
  {
    var n := |s| - 1;
    if n == 0 {
      assert s[..0] == "";
      assert ValueOf(s) == DigitValue(s[0]);
    } else {
      NumeralIsUnique(s[..n]);
      var high := ValueOf(s[..n]);
      assert ValueOf(s) == 10 * high + DigitValue(s[n]) >= 10;
      assert ValueOf(s) / 10 == high && ValueOf(s) % 10 == DigitValue(s[n]);
      assert s == s[..n] + [s[n]];
    }
  }

  function Pow10(k: nat): nat {
    if k == 0 then 1 else 10 * Pow10(k - 1)
  }

  lemma {:induction false} NumeralLength(n: nat, k: nat)
    requires k >= 1 && n < Pow10(k)
    ensures |Numeral(n)| <= k
    decreases k
  {
    if n >= 10 {
      NumeralLength(n / 10, k - 1);
    }
  }

  /** The digits still to be written while n remains. */
  function Leading(n: nat): string {
    if n == 0 then "" else Numeral(n)
  }

  lemma NumeralStep(n: nat, tail: string)
    requires n > 0
    ensures Leading(n) + tail == Leading(n / 10) + ([DigitChar(n % 10)] + tail)
  {
    assert Leading(n) == Leading(n / 10) + [DigitChar(n % 10)];
  }

  lemma Pow10Of19()
    ensures Pow10(19) == 10000000000000000000
  {
    assert Pow10(5) == 100000;
    assert Pow10(10) == 100000 * Pow10(5);
    assert Pow10(15) == 100000 * Pow10(10);
    assert Pow10(19) == 10000 * Pow10(15);
  }

  /**
    strIntoa on a 64-bit int: fills a 20-byte buffer from the end. It prints every
    non-negative number as its numeral without leaving the buffer, and returns
    the empty string for a negative one.
   */
  method StrIntoa(n0: int) returns (s: string)
    requires -0x8000_0000_0000_0000 <= n0 < 0x8000_0000_0000_0000
    ensures n0 >= 0 ==> s == Numeral(n0)
    ensures n0 < 0 ==> s == ""
  {
    var n := n0;
    if n == 0 {
      return "0";
    }
    var buf := new char[20](i => '0');
    var i := buf.Length;
    if n0 > 0 {
      Pow10Of19();
      NumeralLength(n0, 19);
      assert Numeral(n0) == Leading(n) + "";
    }
    ghost var written := "";
    while n > 0
      invariant 0 <= i <= 20 && buf[i..] == written
      invariant n0 < 0 ==> n == n0 && i == 20
      invariant n0 > 0 ==> n >= 0 && Numeral(n0) == Leading(n) + written
      decreases n
    {
      NumeralStep(n, written);
      assert |Leading(n)| >= 1 && |written| == 20 - i;
      var c := DigitChar(n % 10);
      i := i - 1;
      buf[i] := c;
      n := n / 10;
      assert buf[i..] == [c] + buf[i + 1..];
      written := [c] + written;
    }
    return buf[i..];
  }
}
