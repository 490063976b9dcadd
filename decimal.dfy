/**
 * Python's `str()` on an integer (the `{level}` in an f-string): an optional
 * minus sign followed by decimal digits, most significant first.
 */
module Decimal {

  predicate IsDigit(c: char) { '0' <= c <= '9' }

  function DigitChar(d: int): (c: char)
    requires 0 <= d < 10
    ensures IsDigit(c)
  {
    (48 + d) as char
  }

  function NatToString(n: nat): (s: string)
    ensures |s| >= 1
    ensures n < 10 <==> |s| == 1
    ensures forall i :: 0 <= i < |s| ==> IsDigit(s[i])
    decreases n
  {
    if n < 10 then [DigitChar(n)] else NatToString(n / 10) + [DigitChar(n % 10)]
  }

  function IntToString(i: int): (s: string)
    ensures |s| >= 1
    ensures forall k :: 0 <= k < |s| ==> s[k] == '-' || IsDigit(s[k])
    ensures s[0] == '-' <==> i < 0
  {
    if i < 0 then "-" + NatToString(-i) else NatToString(i)
  }

  /** Different naturals have different decimal spellings. */
  lemma {:induction false} NatToStringInjective(a: nat, b: nat)
    requires NatToString(a) == NatToString(b)
    ensures a == b
    decreases a
  {
    var sa, sb := NatToString(a), NatToString(b);
    if a < 10 {
      assert b < 10;
      assert sa[0] == DigitChar(a) && sb[0] == DigitChar(b);
    } else {
      assert b >= 10;
      assert sa[|sa| - 1] == DigitChar(a % 10);
      assert sb[|sb| - 1] == DigitChar(b % 10);
      assert NatToString(a / 10) == sa[..|sa| - 1];
      assert NatToString(b / 10) == sb[..|sb| - 1];
      NatToStringInjective(a / 10, b / 10);
    }
  }

  /** Different integers have different spellings, so `str` can be undone. */
  lemma IntToStringInjective(a: int, b: int)
    requires IntToString(a) == IntToString(b)
    ensures a == b
  {
    var sa, sb := IntToString(a), IntToString(b);
    if a < 0 && b < 0 {
      assert NatToString(-a) == sa[1..];
      assert NatToString(-b) == sb[1..];
      NatToStringInjective(-a, -b);
    } else if 0 <= a && 0 <= b {
      NatToStringInjective(a, b);
    } else {
      // one spelling starts with '-' and the other with a digit
      assert false;
    }
  }
}
