/** Decimal numerals as used in machine hostnames: digits '0'..'9', most
    significant first, with no leading zeros. */
module Decimal {

  predicate IsDigit(c: char) {
    '0' <= c <= '9'
  }

  function DigitChar(d: nat): (c: char)
    requires d < 10
    ensures IsDigit(c)
    ensures c as int - '0' as int == d
  {
    ('0' as int + d) as char
  }

  function DigitValue(c: char): (d: nat)
    requires IsDigit(c)
    ensures d < 10
    ensures DigitChar(d) == c
  {
    c as int - '0' as int
  }

  predicate AllDigits(s: string) {
    forall i :: 0 <= i < |s| ==> IsDigit(s[i])
  }

  /** A canonical numeral: at least one digit, and a leading '0' only in "0" itself. */
  predicate IsCanonical(s: string) {
    |s| > 0 && AllDigits(s) && (s[0] == '0' ==> |s| == 1)
  }

  /** The decimal rendering of `n`. */
  function FromNat(n: nat): (s: string)
    ensures IsCanonical(s)
    ensures s[0] == '0' <==> n == 0
    decreases n
  {
    if n < 10 then [DigitChar(n)] else FromNat(n / 10) + [DigitChar(n % 10)]
  }

  /** The value of a string of digits, read most significant digit first. */
  function ToNat(s: string): (n: nat)
    requires AllDigits(s)
    ensures |s| > 0 && s[0] != '0' ==> n > 0
    decreases |s|
  {
    if s == [] then 0 else ToNat(s[..|s| - 1]) * 10 + DigitValue(s[|s| - 1])
  }

  /** The length of the longest prefix of `s` that holds no digit. */
  function NonDigitPrefix(s: string): (k: nat)
    ensures k <= |s|
    ensures forall i :: 0 <= i < k ==> !IsDigit(s[i])
    ensures k < |s| ==> IsDigit(s[k])
  {
    if s == [] || IsDigit(s[0]) then 0 else 1 + NonDigitPrefix(s[1..])
  }

  /** A digit-free name followed by a numeral splits at the end of the name. */
  lemma NonDigitPrefixOfNameAndNumber(name: string, digits: string)
    requires forall i :: 0 <= i < |name| ==> !IsDigit(name[i])
    requires |digits| > 0 && IsDigit(digits[0])
    ensures NonDigitPrefix(name + digits) == |name|
  {
    var s := name + digits;
    assert IsDigit(s[|name|]);
  }

  /** Reading back a rendered number gives the number. */
  lemma {:induction false} ToNatFromNat(n: nat)
    ensures ToNat(FromNat(n)) == n
    decreases n
  {
    var s := FromNat(n);
    if n < 10 {
      assert s[..0] == [];
    } else {
      var p := FromNat(n / 10);
      assert s == p + [DigitChar(n % 10)];
      assert s[..|s| - 1] == p;
      ToNatFromNat(n / 10);
    }
  }

  /** Rendering the value of a canonical numeral gives the numeral back. */
  lemma {:induction false} FromNatToNat(s: string)
    requires IsCanonical(s)
    ensures FromNat(ToNat(s)) == s
    decreases |s|
  {
    var last := s[|s| - 1];
    if |s| == 1 {
      assert s[..0] == [];
      assert ToNat(s) == DigitValue(last);
      assert s == [last];
    } else {
      var p := s[..|s| - 1];
      assert p[0] == s[0];
      assert IsCanonical(p);
      FromNatToNat(p);
      var m := ToNat(p);
      var n := ToNat(s);
      assert n == m * 10 + DigitValue(last);
      assert n / 10 == m && n % 10 == DigitValue(last);
      assert s == p + [last];
    }
  }

  /** Distinct numbers have distinct renderings. */
  lemma FromNatInjective(m: nat, n: nat)
    ensures FromNat(m) == FromNat(n) ==> m == n
  {
    ToNatFromNat(m);
    ToNatFromNat(n);
  }
}
