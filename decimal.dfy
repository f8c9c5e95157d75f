/** Decimal text: `BigInt.prototype.toString()` for the nonce response and
    `Number(chainId)` for the path parameter. */
module Decimal {
  import opened Wrappers

  /** Number.MAX_SAFE_INTEGER: every integer up to it is a double exactly. */
  const MAX_SAFE_INTEGER: nat := 0x1F_FFFF_FFFF_FFFF

  predicate IsDigit(c: char)
  {
    '0' <= c <= '9'
  }

  predicate AllDigits(s: string)
  {
    forall i :: 0 <= i < |s| ==> IsDigit(s[i])
  }

  function DigitChar(d: nat): (c: char)
    requires d < 10
    ensures IsDigit(c) && c as int - '0' as int == d
  {
    ('0' as int + d) as char
  }

  function DigitsValue(s: string): nat
    requires AllDigits(s)
  {
    if s == [] then 0
    else 10 * DigitsValue(s[..|s| - 1]) + (s[|s| - 1] as int - '0' as int)
  }

  /** Reads a non-empty run of ASCII decimal digits. */
  function ParseDecimal(s: string): Option<nat>
  {
    if s != [] && AllDigits(s) then Some(DigitsValue(s)) else None
  }

  /** `n.toString()` for a non-negative bigint: no sign, no leading zero. */
  function ShowNat(n: nat): (s: string)
    ensures s != [] && AllDigits(s)
    ensures s[0] == '0' ==> n == 0 && s == "0"
  {
    if n < 10 then [DigitChar(n)] else ShowNat(n / 10) + [DigitChar(n % 10)]
  }

  /** `Number(s)` on the strings this model covers: plain decimal digits
      whose value a double holds exactly. Any other string names no chain. */
  function NumberOf(s: string): (r: Option<int>)
    ensures r.Some? ==> 0 <= r.value <= MAX_SAFE_INTEGER
    ensures r.Some? <==> ParseDecimal(s).Some? && ParseDecimal(s).value <= MAX_SAFE_INTEGER
    ensures r.Some? ==> r.value == ParseDecimal(s).value
  {
    match ParseDecimal(s)
    case Some(v) => if v <= MAX_SAFE_INTEGER then Some(v) else None
    case None => None
  }

  /** Decimal text of any size reads back exactly: the nonce and nonce key
      keep every digit, also beyond 2^53. */
  lemma {:induction false} ParseShowNat(n: nat)
    ensures ParseDecimal(ShowNat(n)) == Some(n)
  {
    var s := ShowNat(n);
    if n >= 10 {
      ParseShowNat(n / 10);
      assert s[..|s| - 1] == ShowNat(n / 10);
      assert s[|s| - 1] == DigitChar(n % 10);
      assert DigitsValue(s) == 10 * (n / 10) + n % 10;
    }
  }

  /** A chain id written in decimal reaches that chain's bucket. */
  lemma NumberOfShowNat(n: nat)
    requires n <= MAX_SAFE_INTEGER
    ensures NumberOf(ShowNat(n)) == Some(n)
  {
    ParseShowNat(n);
  }
}
