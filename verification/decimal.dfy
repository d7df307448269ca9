/**
 Decimal renderings of room codes.

 Hub.CreateRoom turns the integer drawn from `Random.Next(100000, 999999)` into
 a room code with `int.ToString()`. For a non-negative value that is the plain
 decimal numeral: most significant digit first, no sign, no separators and no
 leading zeros. This module defines that rendering, its inverse, and the set of
 strings the hub can issue as room codes.
 */
module Decimal {

  /** Inclusive lower bound handed to `Random.Next`. */
  const MinCode: nat := 100000

  /** EXCLUSIVE upper bound handed to `Random.Next`: 999999 itself is never drawn. */
  const CodeBound: nat := 999999

  /** Every issued room code has this many characters. */
  const CodeLength: nat := 6

  predicate IsDigit(c: char) {
    '0' <= c <= '9'
  }

  predicate AllDigits(s: string) {
    forall i :: 0 <= i < |s| ==> IsDigit(s[i])
  }

  function Pow10(k: nat): (p: nat)
    ensures p >= 1
  {
    if k == 0 then 1 else 10 * Pow10(k - 1)
  }

  function DigitChar(d: nat): (c: char)
    requires d < 10
    ensures IsDigit(c)
    ensures c == '0' <==> d == 0
  {
    (d + '0' as int) as char
  }

  function DigitValue(c: char): (d: nat)
    requires IsDigit(c)
    ensures d < 10
    ensures DigitChar(d) == c
    ensures d == 0 <==> c == '0'
  {
    c as int - '0' as int
  }

  /** The numeral `int.ToString()` produces for n >= 0. */
  function Digits(n: nat): (s: string)
    ensures 1 <= |s| && AllDigits(s)
    ensures s[0] == '0' <==> n == 0
    decreases n
  {
    if n < 10 then [DigitChar(n)] else Digits(n / 10) + [DigitChar(n % 10)]
  }

  /** The value of a numeral, read most significant digit first. */
  function Parse(s: string): (n: nat)
    requires AllDigits(s)
    ensures n < Pow10(|s|)
    decreases |s|
  {
    if |s| == 0 then 0 else 10 * Parse(s[..|s| - 1]) + DigitValue(s[|s| - 1])
  }

  /** Reading back a rendered number gives the number. */
  lemma {:induction false} ParseDigits(n: nat)
    ensures Parse(Digits(n)) == n
    decreases n
  {
    if n >= 10 {
      var s := Digits(n);
      assert s[..|s| - 1] == Digits(n / 10);
      ParseDigits(n / 10);
    } else {
      var s := Digits(n);
      assert s[..|s| - 1] == [];
    }
  }

  /** Rendering is injective, so distinct draws give distinct codes. */
  lemma DigitsInjective(a: nat, b: nat)
    requires Digits(a) == Digits(b)
    ensures a == b
  {
    ParseDigits(a);
    ParseDigits(b);
  }

  /** A numeral without a leading zero is at least 10^(length - 1). */
  lemma {:induction false} ParseLeadingDigit(s: string)
    requires AllDigits(s) && 1 <= |s| && s[0] != '0'
    ensures Pow10(|s| - 1) <= Parse(s)
    decreases |s|
  {
    var p := s[..|s| - 1];
    if |s| > 1 {
      assert p[0] == s[0];
      ParseLeadingDigit(p);
    } else {
      assert p == [];
    }
  }

  /** Rendering the value of a canonical numeral gives the numeral back. */
  lemma {:induction false} DigitsParse(s: string)
    requires AllDigits(s) && 1 <= |s| && (s[0] != '0' || |s| == 1)
    ensures Digits(Parse(s)) == s
    decreases |s|
  {
    var p := s[..|s| - 1];
    var last := s[|s| - 1];
    if |s| > 1 {
      assert p[0] == s[0];
      ParseLeadingDigit(p);
      DigitsParse(p);
      var n := Parse(s);
      assert n == 10 * Parse(p) + DigitValue(last);
      assert n / 10 == Parse(p) && n % 10 == DigitValue(last);
      assert s == p + [last];
    } else {
      assert p == [];
      assert s == [last];
    }
  }

  /** A number with k digits renders as k characters. */
  lemma {:induction false} DigitsLength(n: nat, k: nat)
    requires 1 <= k && Pow10(k - 1) <= n < Pow10(k)
    ensures |Digits(n)| == k
    decreases k
  {
    if k > 1 {
      assert Pow10(k - 1) == 10 * Pow10(k - 2);
      DigitsLength(n / 10, k - 1);
    }
  }

  /** A string CreateRoom can issue: the rendering of a value `Random.Next(MinCode, CodeBound)` can return. */
  predicate IsRoomCode(s: string) {
    AllDigits(s) && MinCode <= Parse(s) < CodeBound && Digits(Parse(s)) == s
  }

  /** Every draw the random source can produce renders as a six-digit room code that reads back as the draw. */
  lemma DrawIsRoomCode(n: nat)
    requires MinCode <= n < CodeBound
    ensures IsRoomCode(Digits(n))
    ensures |Digits(n)| == CodeLength && Parse(Digits(n)) == n
  {
    ParseDigits(n);
    assert Pow10(5) == 100000;
    assert Pow10(6) == 1000000;
    DigitsLength(n, 6);
  }

  /** The room codes are exactly the six-character numerals with a non-zero first digit whose value is below CodeBound. */
  lemma RoomCodeShape(s: string)
    ensures IsRoomCode(s) <==>
      |s| == CodeLength && AllDigits(s) && s[0] != '0' && Parse(s) < CodeBound
  {
    assert Pow10(5) == 100000;
    assert Pow10(6) == 1000000;
    if IsRoomCode(s) {
      DigitsLength(Parse(s), 6);
    }
    if |s| == CodeLength && AllDigits(s) && s[0] != '0' && Parse(s) < CodeBound {
      ParseLeadingDigit(s);
      DigitsParse(s);
    }
  }
}
