/** Decimal numerals, as ASCII codes and as text: length prefixes, message identifiers and headers. */
module Decimal {
  import opened Wrappers

  predicate IsDigitCode(code: int) {
    48 <= code <= 57
  }

  predicate AllDigits(codes: seq<int>) {
    forall i :: 0 <= i < |codes| ==> IsDigitCode(codes[i])
  }

  /** The canonical numeral of `n`: no leading zero except for zero itself. */
  function Codes(n: nat): (codes: seq<int>)
    ensures 1 <= |codes| && AllDigits(codes)
  {
    if n < 10 then [48 + n] else Codes(n / 10) + [48 + n % 10]
  }

  function Value(codes: seq<int>): nat
    requires AllDigits(codes)
  {
    if codes == [] then 0
    else 10 * Value(codes[..|codes| - 1]) + (codes[|codes| - 1] - 48)
  }

  lemma {:induction false} ValueOfCodes(n: nat)
    ensures Value(Codes(n)) == n
  {
    if n < 10 {
      assert Codes(n)[..0] == [];
    } else {
      ValueOfCodes(n / 10);
      assert Codes(n)[..|Codes(n)| - 1] == Codes(n / 10);
    }
  }

  function Pow10(k: nat): nat {
    if k == 0 then 1 else 10 * Pow10(k - 1)
  }

  lemma {:induction false} CodesLength(n: nat, k: nat)
    requires 1 <= k && n < Pow10(k)
    ensures |Codes(n)| <= k
  {
    if 10 <= n {
      CodesLength(n / 10, k - 1);
    }
  }

  // ----- the same numerals as text -----

  function Text(n: nat): (s: string)
    ensures |s| == |Codes(n)|
    ensures forall i :: 0 <= i < |s| ==> '0' <= s[i] <= '9'
  {
    seq(|Codes(n)|, i requires 0 <= i < |Codes(n)| => Codes(n)[i] as char)
  }

  predicate IsNumeral(s: string) {
    |s| > 0 && forall i :: 0 <= i < |s| ==> '0' <= s[i] <= '9'
  }

  function TextCodes(s: string): (codes: seq<int>)
    requires forall i :: 0 <= i < |s| ==> '0' <= s[i] <= '9'
    ensures AllDigits(codes)
  {
    seq(|s|, i requires 0 <= i < |s| => s[i] as int)
  }

  /** Unsigned decimal parsing with an inclusive upper bound; a leading '+' is accepted when `plus`. */
  function Parse(s: string, max: nat, plus: bool): Option<nat> {
    var digits := if plus && |s| > 0 && s[0] == '+' then s[1..] else s;
    if IsNumeral(digits) && Value(TextCodes(digits)) <= max
    then Some(Value(TextCodes(digits)))
    else None
  }

  lemma ParseOfText(n: nat, max: nat, plus: bool)
    requires n <= max
    ensures Parse(Text(n), max, plus) == Some(n)
  {
    ValueOfCodes(n);
    assert TextCodes(Text(n)) == Codes(n);
  }

  lemma TextInjective(m: nat, n: nat)
    requires Text(m) == Text(n)
    ensures m == n
  {
    ParseOfText(m, m + n, false);
    ParseOfText(n, m + n, false);
  }
}
