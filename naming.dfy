/** The naming policy of multi-member groups: "Group" followed by the decimal counter. */
module Naming {

  /** The character of a decimal digit. */
  function DigitChar(d: nat): (c: char)
    requires d < 10
    ensures '0' <= c <= '9'
  {
    (('0' as int) + d) as char
  }

  predicate IsDigit(c: char) {
    '0' <= c <= '9'
  }

  predicate AllDigits(s: string) {
    forall i :: 0 <= i < |s| ==> IsDigit(s[i])
  }

  /** Decimal rendering of a non-negative count, as Java's string concatenation with an int gives it. */
  function NatToString(n: nat): (s: string)
    ensures |s| >= 1 && AllDigits(s)
    ensures n < 10 <==> |s| == 1
  {
    if n < 10 then [DigitChar(n)] else NatToString(n / 10) + [DigitChar(n % 10)]
  }

  /** Reads a string of decimal digits back as a number: the reference against which NatToString is checked. */
  function ParseDecimal(s: string): nat
    requires AllDigits(s)
  {
    if s == [] then 0
    else ParseDecimal(s[..|s| - 1]) * 10 + ((s[|s| - 1] as int) - ('0' as int))
  }

  /** Reading the rendering gives back the number. */
  lemma {:induction false} ParseNatToString(n: nat)
    ensures ParseDecimal(NatToString(n)) == n
  {
    var s := NatToString(n);
    if n >= 10 {
      ParseNatToString(n / 10);
      assert s[..|s| - 1] == NatToString(n / 10);
    }
  }

  /** Distinct counts render differently. */
  lemma NatToStringInjective(a: nat, b: nat)
    requires NatToString(a) == NatToString(b)
    ensures a == b
  {
    ParseNatToString(a);
    ParseNatToString(b);
  }

  /** The name given to the multi-member group created when the counter has reached count. */
  function GroupName(count: nat): (r: string)
    ensures |r| > 5 && r[..5] == "Group"
    ensures ' ' !in r
  {
    "Group" + NatToString(count)
  }

  /** Multi-member groups created at different counter values never share a name. */
  lemma GroupNamesDistinct(a: nat, b: nat)
    requires a != b
    ensures GroupName(a) != GroupName(b)
  {
    if GroupName(a) == GroupName(b) {
      assert NatToString(a) == GroupName(a)[5..];
      assert NatToString(b) == GroupName(b)[5..];
      NatToStringInjective(a, b);
    }
  }
}
