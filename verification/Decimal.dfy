/** Decimal numerals. */
module Decimals {
  import opened PercentCoding

  /** `std::to_string` of an unsigned number. */
  function Decimal(n: nat): string {
    if n < 10 then [(48 + n) as char] else Decimal(n / 10) + [(48 + n % 10) as char]
  }

  predicate DecimalDigits(s: string) {
    s != "" && forall i :: 0 <= i < |s| ==> Digit(s[i])
  }

  /** The number that a numeral stands for. */
  function DecimalValue(s: string): nat
    requires forall i :: 0 <= i < |s| ==> Digit(s[i])
  {
    if s == "" then 0
    else
      assert Digit(s[|s| - 1]);
      10 * DecimalValue(s[..|s| - 1]) + s[|s| - 1] as int - 48
  }

  lemma {:induction false} DecimalReads(n: nat)
    ensures DecimalDigits(Decimal(n)) && DecimalValue(Decimal(n)) == n
    ensures n > 0 ==> Decimal(n)[0] != '0'
  {
    if n < 10 {
      assert Decimal(n)[..0] == "";
    } else {
      DecimalReads(n / 10);
      var a := Decimal(n / 10);
      assert Decimal(n)[..|a|] == a && Decimal(n)[0] == a[0];
    }
  }
}
