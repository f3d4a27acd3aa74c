/** Decimal text of integers: the `%d` verb of Go's fmt for unsigned values,
    and Go's strconv.Atoi on a 64-bit platform. */
module Numerals {
  import opened Common

  const MaxInt64: int := 0x7FFF_FFFF_FFFF_FFFF
  const MinInt64: int := -0x8000_0000_0000_0000

  predicate IsDigit(c: char)
  {
    '0' <= c <= '9'
  }

  predicate AllDigits(s: string)
  {
    forall i :: 0 <= i < |s| ==> IsDigit(s[i])
  }

  function DigitChar(d: nat): (c: char)
    requires d < 10
    ensures IsDigit(c) && c as int - '0' as int == d
  {
    ('0' as int + d) as char
  }

  /** The shortest decimal numeral of `n`, as `%d` prints an unsigned value. */
  function Decimal(n: nat): (r: string)
    ensures |r| >= 1 && AllDigits(r)
    ensures n == 0 ==> r == "0"
    ensures n >= 1 ==> r[0] != '0'
  {
    if n < 10 then [DigitChar(n)] else Decimal(n / 10) + [DigitChar(n % 10)]
  }

  /** The number a non-empty or empty string of digits denotes (leading zeros allowed). */
  function DigitsValue(s: string): nat
    requires AllDigits(s)
  {
    if s == [] then 0 else DigitsValue(s[..|s| - 1]) * 10 + (s[|s| - 1] as int - '0' as int)
  }

  /** Reading back a numeral printed by `Decimal` yields the number printed. */
  lemma {:induction false} DigitsValueOfDecimal(n: nat)
    ensures DigitsValue(Decimal(n)) == n
  {
    var r := Decimal(n);
    if n >= 10 {
      var prefix := Decimal(n / 10);
      assert r[..|r| - 1] == prefix;
      DigitsValueOfDecimal(n / 10);
    }
  }

  /** `Decimal` is injective: distinct numbers print differently. */
  lemma DecimalInjective(m: nat, n: nat)
    requires Decimal(m) == Decimal(n)
    ensures m == n
  {
    DigitsValueOfDecimal(m);
    DigitsValueOfDecimal(n);
  }

  predicate IsSign(c: char)
  {
    c == '+' || c == '-'
  }

  /** Go's strconv.Atoi with a 64-bit int: an optional sign followed by one or
      more decimal digits (leading zeros allowed, no spaces, no underscores),
      whose value must lie in the int64 range; anything else is an error. */
  function Atoi(s: string): (r: Option<int>)
    ensures r.Some? ==> MinInt64 <= r.value <= MaxInt64
    ensures r.Some? ==> |s| >= 1 && (IsDigit(s[0]) || (IsSign(s[0]) && |s| >= 2))
    ensures r.Some? ==> forall i :: 0 < i < |s| ==> IsDigit(s[i])
    ensures r.Some? && r.value < 0 ==> s[0] == '-'
  {
    if s == [] then None
    else
      var digits := if IsSign(s[0]) then s[1..] else s;
      if digits == [] || !AllDigits(digits) then None
      else
        var magnitude: int := DigitsValue(digits);
        var v: int := if s[0] == '-' then -magnitude else magnitude;
        if v < MinInt64 || v > MaxInt64 then None else Some(v)
  }

  /** Atoi parses every in-range numeral that `Decimal` prints. */
  lemma AtoiOfDecimal(n: nat)
    requires n <= MaxInt64
    ensures Atoi(Decimal(n)) == Some(n)
  {
    DigitsValueOfDecimal(n);
  }

  /** Atoi parses a minus sign followed by an in-range numeral as its negation. */
  lemma AtoiOfNegatedDecimal(n: nat)
    requires n <= -MinInt64
    ensures Atoi("-" + Decimal(n)) == Some(-(n as int))
  {
    var s := "-" + Decimal(n);
    assert s[1..] == Decimal(n);
    DigitsValueOfDecimal(n);
  }

  /** Atoi rejects the empty string, a lone sign, and any string with a
      character that is neither a digit nor a leading sign. */
  lemma AtoiRejectsMalformed(s: string)
    requires s == [] || s == "+" || s == "-"
          || (exists i :: 0 <= i < |s| && !IsDigit(s[i]) && !(i == 0 && IsSign(s[i])))
    ensures Atoi(s) == None
  {
  }
}
