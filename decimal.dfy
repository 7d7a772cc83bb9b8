// Decimal rendering of integers, as Java's string concatenation (`"" + n`)
// and `c - '0'` on digit characters do it.
module Decimal {

  predicate IsDigit(c: char) {
    '0' <= c <= '9'
  }

  /** Java's `c - '0'`: the distance of a character from '0'. */
  function DigitValue(c: char): (d: int)
    ensures IsDigit(c) ==> 0 <= d < 10
  {
    c as int - '0' as int
  }

  function DigitChar(d: int): (c: char)
    requires 0 <= d < 10
    ensures IsDigit(c) && DigitValue(c) == d
  {
    (d + '0' as int) as char
  }

  /** The decimal digits of `n`, most significant first, without leading zeros. */
  function NatToString(n: nat): (s: string)
    ensures |s| >= 1
    ensures forall i :: 0 <= i < |s| ==> IsDigit(s[i])
    ensures n >= 10 ==> s[0] != '0'
    ensures |s| == 1 <==> n < 10
    decreases n
  {
    if n < 10 then [DigitChar(n)] else NatToString(n / 10) + [DigitChar(n % 10)]
  }

  /** The value of a string of decimal digits, most significant first. */
  function DigitsValue(s: string): int
  {
    if |s| == 0 then 0 else 10 * DigitsValue(s[..|s| - 1]) + DigitValue(s[|s| - 1])
  }

  /** Java's decimal form of an int: an optional minus sign, then one or
      more digits with no leading zero, and never "-0". */
  predicate Canonical(s: string) {
    var d := if |s| > 0 && s[0] == '-' then s[1..] else s;
    && |d| >= 1
    && (forall i :: 0 <= i < |d| ==> IsDigit(d[i]))
    && (|d| > 1 ==> d[0] != '0')
    && (|s| > 0 && s[0] == '-' ==> d != "0")
  }

  /** Java's `Integer.toString(n)`: a minus sign for negative values, then the digits. */
  function IntToString(n: int): (s: string)
    ensures |s| >= 1 && (s[0] == '-' <==> n < 0)
    ensures n < 0 ==> |s| >= 2
    ensures forall i :: (if n < 0 then 1 else 0) <= i < |s| ==> IsDigit(s[i])
    ensures |s| > (if n < 0 then 2 else 1) ==> s[if n < 0 then 1 else 0] != '0'
    ensures Canonical(s)
  {
    if n < 0 then "-" + NatToString(-n) else NatToString(n)
  }

  /** Reads back what IntToString writes. */
  function ParseInt(s: string): int
  {
    if |s| > 0 && s[0] == '-' then -DigitsValue(s[1..]) else DigitsValue(s)
  }

  lemma {:induction false} NatToStringValue(n: nat)
    ensures DigitsValue(NatToString(n)) == n
    decreases n
  {
    if n >= 10 {
      var s := NatToString(n);
      NatToStringValue(n / 10);
      assert s[..|s| - 1] == NatToString(n / 10);
    }
  }

  /** Decimal rendering is injective: ParseInt undoes IntToString. */
  lemma IntToStringRoundTrip(n: int)
    ensures ParseInt(IntToString(n)) == n
  {
    if n < 0 {
      NatToStringValue(-n);
      assert IntToString(n)[1..] == NatToString(-n);
    } else {
      NatToStringValue(n);
    }
  }

  /** Java's 32-bit `int` addition: the sum wrapped into [-2^31, 2^31). */
  function AddInt32(a: int, b: int): (w: int)
    ensures -0x8000_0000 <= w < 0x8000_0000
    ensures (w - (a + b)) % 0x1_0000_0000 == 0
    ensures -0x8000_0000 <= a + b < 0x8000_0000 ==> w == a + b
  {
    (a + b + 0x8000_0000) % 0x1_0000_0000 - 0x8000_0000
  }

  /** A number 0..9 is rendered as its single digit. */
  lemma SingleDigit(n: int)
    requires 0 <= n < 10
    ensures IntToString(n) == [DigitChar(n)]
  {
  }

  /** A digit string without leading zeros is what NatToString writes for its value. */
  lemma {:induction false} DigitsRendering(d: string)
    requires |d| >= 1 && (forall i :: 0 <= i < |d| ==> IsDigit(d[i])) && (|d| > 1 ==> d[0] != '0')
    ensures DigitsValue(d) >= 0
    ensures d != "0" ==> DigitsValue(d) >= 1
    ensures NatToString(DigitsValue(d)) == d
    decreases |d|
  {
    var c := d[|d| - 1];
    var p := d[..|d| - 1];
    if |d| == 1 {
      assert p == [];
      assert d == [c];
    } else {
      assert p[0] == d[0];
      DigitsRendering(p);
      var a := DigitsValue(p);
      var v := DigitsValue(d);
      assert p != "0";
      assert v == 10 * a + DigitValue(c) && a >= 1;
      assert v / 10 == a && v % 10 == DigitValue(c);
      assert DigitChar(DigitValue(c)) == c;
      assert d == p + [c];
    }
  }

  /** A canonical decimal string is the rendering of the number it denotes,
      so IntToString is the only canonical way to write a number. */
  lemma CanonicalIsRendering(s: string)
    requires Canonical(s)
    ensures IntToString(ParseInt(s)) == s
  {
    if |s| > 0 && s[0] == '-' {
      DigitsRendering(s[1..]);
      assert s == "-" + s[1..];
    } else {
      DigitsRendering(s);
    }
  }

  /** Two canonical strings for the same number are the same string. */
  lemma CanonicalUnique(s: string, t: string)
    requires Canonical(s) && Canonical(t) && ParseInt(s) == ParseInt(t)
    ensures s == t
  {
    CanonicalIsRendering(s);
    CanonicalIsRendering(t);
  }
}
