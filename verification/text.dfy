/** Number formatting as Python's `str(n)` and `hex(n)[2:]` produce it for
    non-negative integers, and the digit classes the scraper tests for. */
module Text {
  import opened Maybe

  /** An ASCII decimal digit; `str.isdigit` is modelled on ASCII only */
  predicate IsDigit(c: char) {
    '0' <= c <= '9'
  }

  /** `s.isdigit()`: non-empty and every character a digit */
  predicate IsDigitString(s: string) {
    s != [] && forall i :: 0 <= i < |s| ==> IsDigit(s[i])
  }

  /** Every character is a digit (the empty string included) */
  predicate AllDigits(s: string) {
    forall i :: 0 <= i < |s| ==> IsDigit(s[i])
  }

  /** A lower-case hexadecimal digit */
  predicate IsHexDigit(c: char) {
    IsDigit(c) || 'a' <= c <= 'f'
  }

  predicate AllHex(s: string) {
    forall i :: 0 <= i < |s| ==> IsHexDigit(s[i])
  }

  function DigitChar(d: nat): (c: char)
    requires d < 10
    ensures IsDigit(c)
  {
    (48 + d) as char
  }

  function HexChar(d: nat): (c: char)
    requires d < 16
    ensures IsHexDigit(c)
  {
    if d < 10 then (48 + d) as char else (87 + d) as char
  }

  function HexDigitValue(c: char): (d: nat)
    requires IsHexDigit(c)
    ensures d < 16
  {
    if IsDigit(c) then c as int - 48 else c as int - 87
  }

  /** The value of a decimal digit string, most significant digit first */
  function DecimalValue(s: string): nat
    requires AllDigits(s)
  {
    if s == [] then 0
    else 10 * DecimalValue(s[..|s| - 1]) + (s[|s| - 1] as int - 48)
  }

  /** The value of a hexadecimal digit string, most significant digit first */
  function HexValue(s: string): nat
    requires AllHex(s)
  {
    if s == [] then 0
    else 16 * HexValue(s[..|s| - 1]) + HexDigitValue(s[|s| - 1])
  }

  /** `str(n)`: the shortest decimal numeral of `n` */
  function Decimal(n: nat): (s: string)
    ensures s != [] && AllDigits(s)
    ensures DecimalValue(s) == n
    ensures |s| > 1 ==> s[0] != '0'
  {
    if n < 10 then [DigitChar(n)]
    else
      var prefix := Decimal(n / 10);
      var s := prefix + [DigitChar(n % 10)];
      assert s[..|s| - 1] == prefix;
      s
  }

  /** `hex(n)[2:]`: the shortest lower-case hexadecimal numeral of `n` */
  function Hex(n: nat): (s: string)
    ensures s != [] && AllHex(s)
    ensures HexValue(s) == n
    ensures |s| > 1 ==> s[0] != '0'
  {
    if n < 16 then [HexChar(n)]
    else
      var prefix := Hex(n / 16);
      var s := prefix + [HexChar(n % 16)];
      assert s[..|s| - 1] == prefix;
      s
  }

  function Pow(b: nat, e: nat): nat {
    if e == 0 then 1 else b * Pow(b, e - 1)
  }

  /** A numeral of `k` digits without a leading zero needs `k` digits: `hex(n)`
      has at most `k` digits exactly when `n < 16^k` */
  lemma {:induction false} HexLength(n: nat, k: nat)
    requires k >= 1
    ensures |Hex(n)| <= k <==> n < Pow(16, k)
  {
    if n < 16 {
      assert |Hex(n)| == 1;
      PowAtLeastBase(k);
    } else {
      if k == 1 {
        assert |Hex(n)| >= 2;
      } else {
        HexLength(n / 16, k - 1);
        assert |Hex(n)| == |Hex(n / 16)| + 1;
        assert n < Pow(16, k) <==> n / 16 < Pow(16, k - 1);
      }
    }
  }

  lemma PowAtLeastBase(k: nat)
    requires k >= 1
    ensures Pow(16, k) >= 16
  {
    if k > 1 {
      PowAtLeastBase(k - 1);
    }
  }

  /** The text before the first `c` and the text after it */
  function SplitAt(s: string, c: char): (r: Option<(string, string)>)
    ensures r.Some? ==> c !in r.value.0 && s == r.value.0 + [c] + r.value.1
    ensures r.None? <==> c !in s
  {
    if s == [] then None
    else if s[0] == c then Some(([], s[1..]))
    else match SplitAt(s[1..], c)
      case None => None
      case Some(parts) => Some(([s[0]] + parts.0, parts.1))
  }

  lemma {:induction false} SplitAtJoin(a: string, c: char, b: string)
    requires c !in a
    ensures SplitAt(a + [c] + b, c) == Some((a, b))
  {
    if a != [] {
      assert (a + [c] + b)[1..] == a[1..] + [c] + b;
      SplitAtJoin(a[1..], c, b);
      assert [a[0]] + a[1..] == a;
    }
  }

}
