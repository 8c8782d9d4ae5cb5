/** Python's `str(i)` for a non-negative integer, as used to number the
    citation columns (`f"CITATION_CONTENT_{i}"`). */
module Decimal {

  function Digit(d: nat): (c: char)
    requires d < 10
    ensures '0' <= c <= '9'
  {
    ('0' as int + d) as char
  }

  /** The decimal numeral of `n`, without sign or leading zeros. */
  function NatToString(n: nat): (s: string)
    ensures (|s| == 1) == (n < 10) && |s| >= 1
    ensures forall i :: 0 <= i < |s| ==> '0' <= s[i] <= '9'
  {
    if n < 10 then [Digit(n)] else NatToString(n / 10) + [Digit(n % 10)]
  }

  /** Different numbers have different numerals, so numbered column names never collide. */
  lemma {:induction false} NatToStringInjective(a: nat, b: nat)
    requires NatToString(a) == NatToString(b)
    ensures a == b
    decreases a
  {
    var s := NatToString(a);
    if a < 10 {
      assert s == [Digit(a)] == [Digit(b)];
    } else {
      var n := |s|;
      assert NatToString(a / 10) == s[..n - 1] == NatToString(b / 10);
      NatToStringInjective(a / 10, b / 10);
      assert Digit(a % 10) == s[n - 1] == Digit(b % 10);
    }
  }
}
